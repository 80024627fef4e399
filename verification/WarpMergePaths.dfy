/** Merged warp cells stay locatable: each has its own path, and the path leads to the cell it was made from. */
module WarpMergePaths {
  import opened Basics
  import opened WarpMerge
  import opened WarpMergeProofs
  import opened WarpMergeResults

  /** Following `path` through the appearances, one cell per level, ends at `c`. */
  ghost predicate Leads(sun: Sun, warps: map<CellPath, Sun>, path: CellPath, c: Cell)
    decreases |path|
  {
    if |path| == 0 then false
    else if |path| == 1 then c in sun.nodes && c.id == path[0]
    else [path[0]] in warps && Leads(warps[[path[0]]], Sub(warps, path[0]), path[1..], c)
  }

  ghost predicate LocatedAs(m: Merged, sun: Sun, warps: map<CellPath, Sun>, id: nat, original: Cell, c: Cell)
    requires id in m.paths
  {
    && Leads(sun, warps, m.paths[id], original) && original.Warp()
    && c in m.cells && c.id == id && c.journey == original.journey && c.payload == original.payload
  }

  /** The path of `id` leads to a warp cell of which the merged cell `id` is the copy. */
  ghost predicate Located(m: Merged, sun: Sun, warps: map<CellPath, Sun>, id: nat)
    requires id in m.paths
  {
    exists original, c :: LocatedAs(m, sun, warps, id, original, c)
  }

  /** Exactly the warp cells have a path, and no two share one. */
  predicate PathsUnique(m: Merged) {
    && (forall c :: c in m.cells ==> (c.Warp() <==> c.id in m.paths))
    && (forall x, y :: x in m.paths && y in m.paths && m.paths[x] == m.paths[y] ==> x == y)
  }

  /** Paths into nested suns start with a parent below `bound`. */
  predicate PathsBelow(m: Merged, bound: nat) {
    forall id :: id in m.paths ==> |m.paths[id]| >= 1 && (|m.paths[id]| > 1 ==> m.paths[id][0] < bound)
  }

  ghost predicate PathsOk(m: Merged, sun: Sun, warps: map<CellPath, Sun>, bound: nat) {
    PathsUnique(m) && PathsBelow(m, bound) && forall id :: id in m.paths ==> Located(m, sun, warps, id)
  }

  ghost predicate WarpsValid(warps: map<CellPath, Sun>) {
    forall path :: path in warps ==> Valid(warps[path].nodes, warps[path].edges)
  }

  lemma InitialPaths(sun: Sun, warps: map<CellPath, Sun>)
    requires Valid(sun.nodes, sun.edges)
    ensures PathsOk(Initial(sun), sun, warps, 0)
  {
    hide EdgeOk, UniquePorts;
    var m := Initial(sun);
    forall c | c in m.cells ensures c.Warp() <==> c.id in m.paths {
      if c.id in m.paths {
        var d :| d in sun.nodes && d.Warp() && d.id == c.id;
        SameId(sun.nodes, c, d);
      }
    }
    forall id | id in m.paths ensures Located(m, sun, warps, id) {
      var d :| d in sun.nodes && d.Warp() && d.id == id;
      assert m.paths[id] == [id];
      assert LocatedAs(m, sun, warps, id, d, d);
    }
  }

  lemma SameId(cells: seq<Cell>, c: Cell, d: Cell)
    requires UniqueIds(cells) && c in cells && d in cells && c.id == d.id
    ensures c == d
  {
  }

  lemma BlockSize(m: Merged, nested: Merged)
    requires Valid(nested.cells, nested.edges)
    ensures |Block(m, nested).0| == |nested.cells|
  {
    hide Valid;
    LookupsHit(nested, m.nextId, m.nextPort);
    RenameCellsAt(nested.cells, IdMap(nested, m.nextId), PortMap(nested, m.nextPort));
  }

  /** The copy at position `j` of a block. */
  lemma CopiedCellAt(m: Merged, nested: Merged, j: nat)
    requires Valid(nested.cells, nested.edges) && j < |nested.cells|
    ensures |Block(m, nested).0| == |nested.cells| && NestedOrigin(m, nested, Block(m, nested).0[j], nested.cells[j])
  {
    hide Valid;
    BlockSize(m, nested);
    LookupsHit(nested, m.nextId, m.nextPort);
    RenameCellsAt(nested.cells, IdMap(nested, m.nextId), PortMap(nested, m.nextPort));
    assert nested.cells[j] in nested.cells;
  }

  /** Where a cell of an attachment comes from. */
  lemma AttachedCellOrigin(m: Merged, parent: nat, nested: Merged, sink: nat, c: Cell)
    requires Sound(m) && Valid(nested.cells, nested.edges)
    requires parent in Ids(m.cells) && sink in Ids(nested.cells)
    requires c in Attach(m, parent, nested, sink).cells
    ensures (c in m.cells && c.id < m.nextId) || exists d :: NestedOrigin(m, nested, c, d)
  {
    hide Sound, Valid, Connector, Landing, Attach, Block, IdMap;
    SoundIsNamed(m);
    BlockSize(m, nested);
    AttachedCellsAt(m, parent, nested, sink);
    var cells := Attach(m, parent, nested, sink).cells;
    var i :| 0 <= i < |cells| && cells[i] == c;
    if i < |m.cells| {
      assert m.cells[i] in m.cells && m.cells[i].id in Ids(m.cells);
      CellBelow(m, m.cells[i]);
    } else {
      var d := nested.cells[i - |m.cells|];
      CopiedCellAt(m, nested, i - |m.cells|);
      assert NestedOrigin(m, nested, c, d);
    }
  }

  lemma CellBelow(m: Merged, c: Cell)
    requires Sound(m) && c in m.cells
    ensures c.id < m.nextId
  {
    assert c.id in Ids(m.cells);
  }

  predicate NestedOrigin(m: Merged, nested: Merged, c: Cell, d: Cell) {
    d in nested.cells && d.id in IdMap(nested, m.nextId) && c.id == IdMap(nested, m.nextId)[d.id] && c.journey == d.journey
  }

  /** The path of a merged id: old ones stay, nested ones are led by the parent. */
  lemma AttachedPaths(m: Merged, parent: nat, nested: Merged, sink: nat)
    requires Sound(m) && Valid(nested.cells, nested.edges) && sink in Ids(nested.cells)
    ensures var (r, ids) := (Attach(m, parent, nested, sink), IdMap(nested, m.nextId));
            && r.paths.Keys == m.paths.Keys + MergedIds(nested.paths, ids)
            && (forall x :: x in MergedIds(nested.paths, ids) ==>
              m.nextId <= x && r.paths[x] == [parent] + nested.paths[LocalId(nested.paths, ids, x)])
            && (forall x :: x in m.paths && x < m.nextId ==> r.paths[x] == m.paths[x])
  {
    hide Sound, Valid, Block, Landing, Connector, Numbering, IdList;
    var ids := IdMap(nested, m.nextId);
    PlaceAtIsPlace(m, parent, nested, sink);
    assert PlaceAt(m, parent, nested, sink).ids == ids;
    forall x | x in MergedIds(nested.paths, ids) ensures m.nextId <= x {
      var id := LocalId(nested.paths, ids, x);
      assert ids[id] in ids.Values;
    }
  }

  lemma LocalIdIs(paths: map<nat, CellPath>, ids: map<nat, nat>, id: nat)
    requires Injective(ids) && id in ids && ids[id] in MergedIds(paths, ids)
    ensures LocalId(paths, ids, ids[id]) == id && id in paths
  {
  }

  /** The keys of the paths are ids of cells. */
  predicate PathKeysBelow(m: Merged) {
    forall id :: id in m.paths ==> id < m.nextId
  }

  lemma AttachWarpCells(m: Merged, parent: nat, nested: Merged, sink: nat, c: Cell)
    requires Sound(m) && Valid(nested.cells, nested.edges)
    requires parent in Ids(m.cells) && sink in Ids(nested.cells)
    requires PathsUnique(m) && PathKeysBelow(m) && PathsUnique(nested)
    requires c in Attach(m, parent, nested, sink).cells
    ensures c.Warp() <==> c.id in Attach(m, parent, nested, sink).paths
  {
    hide Valid, Attach, IdMap, Sound;
    var ids := IdMap(nested, m.nextId);
    AttachedPaths(m, parent, nested, sink);
    LookupsHit(nested, m.nextId, m.nextPort);
    AttachedCellOrigin(m, parent, nested, sink, c);
    if !(c in m.cells && c.id < m.nextId) {
      var d :| NestedOrigin(m, nested, c, d);
      MergedIdIsFresh(m, parent, nested, sink, d.id);
      if c.id in MergedIds(nested.paths, ids) { LocalIdIs(nested.paths, ids, d.id); }
    }
  }

  lemma MergedIdIsFresh(m: Merged, parent: nat, nested: Merged, sink: nat, id: nat)
    requires Valid(nested.cells, nested.edges) && sink in Ids(nested.cells) && id in IdMap(nested, m.nextId)
    ensures m.nextId <= IdMap(nested, m.nextId)[id] < m.nextId + |nested.cells|
  {
    PlaceAtIsPlace(m, parent, nested, sink);
    assert PlaceAt(m, parent, nested, sink).ids == IdMap(nested, m.nextId);
    assert IdMap(nested, m.nextId)[id] in IdMap(nested, m.nextId).Values;
  }

  /** The path of one merged id, by where it comes from. */
  lemma AttachedPathAt(m: Merged, parent: nat, nested: Merged, sink: nat, x: nat)
    requires Sound(m) && Valid(nested.cells, nested.edges) && sink in Ids(nested.cells)
    requires PathKeysBelow(m) && x in Attach(m, parent, nested, sink).paths
    ensures var (r, ids) := (Attach(m, parent, nested, sink), IdMap(nested, m.nextId));
            && x < r.nextId
            && (x < m.nextId ==> x in m.paths && r.paths[x] == m.paths[x])
            && (x >= m.nextId ==> (
              x in MergedIds(nested.paths, ids)
              && r.paths[x] == [parent] + nested.paths[LocalId(nested.paths, ids, x)]))
  {
    hide Sound, Valid, Block, Landing, Connector, IdMap;
    AttachedPaths(m, parent, nested, sink);
    var ids := IdMap(nested, m.nextId);
    if x in MergedIds(nested.paths, ids) {
      MergedIdIsFresh(m, parent, nested, sink, LocalId(nested.paths, ids, x));
    }
  }

  /** Different merged warp cells have different paths. */
  lemma AttachPathsDiffer(m: Merged, parent: nat, nested: Merged, sink: nat, x: nat, y: nat)
    requires Sound(m) && Valid(nested.cells, nested.edges) && sink in Ids(nested.cells)
    requires PathKeysBelow(m) && PathsUnique(m) && PathsBelow(m, parent)
    requires PathsUnique(nested) && forall id :: id in nested.paths ==> |nested.paths[id]| >= 1
    requires x in Attach(m, parent, nested, sink).paths && y in Attach(m, parent, nested, sink).paths && x < y
    ensures Attach(m, parent, nested, sink).paths[x] != Attach(m, parent, nested, sink).paths[y]
  {
    hide Sound, Valid, Attach, IdMap, MergedIds;
    AttachedPathAt(m, parent, nested, sink, x);
    AttachedPathAt(m, parent, nested, sink, y);
    var r, ids := Attach(m, parent, nested, sink), IdMap(nested, m.nextId);
    if y >= m.nextId {
      var j := LocalId(nested.paths, ids, y);
      assert r.paths[y][0] == parent && |r.paths[y]| > 1 && r.paths[y][1..] == nested.paths[j];
      if x >= m.nextId {
        var i := LocalId(nested.paths, ids, x);
        assert r.paths[x][1..] == nested.paths[i] && i != j;
      }
    }
  }

  lemma AttachPathsUnique(m: Merged, parent: nat, nested: Merged, sink: nat)
    requires Sound(m) && Valid(nested.cells, nested.edges)
    requires parent in Ids(m.cells) && sink in Ids(nested.cells)
    requires PathKeysBelow(m) && PathsUnique(m) && PathsBelow(m, parent)
    requires PathsUnique(nested) && forall id :: id in nested.paths ==> |nested.paths[id]| >= 1
    ensures var r := Attach(m, parent, nested, sink);
            PathsUnique(r) && PathsBelow(r, parent + 1) && PathKeysBelow(r)
  {
    hide Sound, Valid, Attach, IdMap, MergedIds;
    var r := Attach(m, parent, nested, sink);
    forall c | c in r.cells ensures c.Warp() <==> c.id in r.paths {
      AttachWarpCells(m, parent, nested, sink, c);
    }
    forall x, y | x in r.paths && y in r.paths && r.paths[x] == r.paths[y] ensures x == y {
      if x < y { AttachPathsDiffer(m, parent, nested, sink, x, y); }
      if y < x { AttachPathsDiffer(m, parent, nested, sink, y, x); }
    }
    forall x | x in r.paths
      ensures |r.paths[x]| >= 1 && (|r.paths[x]| > 1 ==> r.paths[x][0] < parent + 1) && x < r.nextId
    {
      AttachedPathAt(m, parent, nested, sink, x);
    }
  }

  lemma AttachLocates(m: Merged, parent: nat, sun: Sun, warps: map<CellPath, Sun>, sink: nat, x: nat)
    requires Sound(m) && [parent] in warps && Valid(NestedAt(warps, parent).cells, NestedAt(warps, parent).edges)
    requires parent in Ids(m.cells) && sink in Ids(NestedAt(warps, parent).cells)
    requires PathKeysBelow(m) && forall id :: id in m.paths ==> Located(m, sun, warps, id)
    requires forall id :: id in NestedAt(warps, parent).paths ==>
      Located(NestedAt(warps, parent), warps[[parent]], Sub(warps, parent), id)
    requires x in Attach(m, parent, NestedAt(warps, parent), sink).paths
    ensures Located(Attach(m, parent, NestedAt(warps, parent), sink), sun, warps, x)
  {
    hide Sound, Named, Valid, Attach, IdMap, MergedIds, NestedAt, Ids, Mapped, Connector;
    SoundIsNamed(m);
    var nested := NestedAt(warps, parent);
    var r, ids := Attach(m, parent, nested, sink), IdMap(nested, m.nextId);
    AttachedPathAt(m, parent, nested, sink, x);
    if x < m.nextId {
      var original, c :| LocatedAs(m, sun, warps, x, original, c);
      OuterCellsKept(m, parent, nested, sink);
      assert LocatedAs(r, sun, warps, x, original, c);
    } else {
      var id := LocalId(nested.paths, ids, x);
      var original, c :| LocatedAs(nested, warps[[parent]], Sub(warps, parent), id, original, c);
      NestedCellsPlaced(m, parent, nested, sink);
      var place := PlaceAt(m, parent, nested, sink);
      assert PlacedCellIn(c, place, r.cells);
      LeadsDeeper(warps[[parent]], sun, warps, parent, nested.paths[id], original);
      assert LocatedAs(r, sun, warps, x, original, PlacedCell(c, place));
    }
  }

  lemma LeadsDeeper(warp: Sun, sun: Sun, warps: map<CellPath, Sun>, parent: nat, path: CellPath, c: Cell)
    requires [parent] in warps && warp == warps[[parent]] && Leads(warp, Sub(warps, parent), path, c)
    ensures Leads(sun, warps, [parent] + path, c)
  {
    var longer := [parent] + path;
    assert longer[0] == parent && longer[1..] == path && |longer| > 1;
    assert [longer[0]] == [parent];
  }

  /** The invariant of the merge loop. */
  ghost predicate PathsInv(m: Merged, sun: Sun, warps: map<CellPath, Sun>, bound: nat) {
    Sound(m) && PathKeysBelow(m) && PathsOk(m, sun, warps, bound)
  }

  lemma {:induction false} AttachOnePaths(m: Merged, parent: nat, sun: Sun, warps: map<CellPath, Sun>)
    requires PathsInv(m, sun, warps, parent) && WarpsValid(warps) && [parent] in warps
    ensures PathsInv(AttachOne(m, parent, warps), sun, warps, parent + 1)
    decreases |warps|, 1, 0
  {
    hide Sound, Valid, Attach, AttachOne, Ids, Located, PathsUnique, PathKeysBelow;
    SubIsSmaller(warps, parent);
    AttachOneSound(m, parent, warps);
    if Attaches(m, parent, warps) {
      AttachesFacts(m, parent, warps);
      AttachOneJoins(m, parent, warps);
      var sink := Sinks(warps[[parent]])[0];
      NestedPaths(warps, parent);
      AttachPathsUnique(m, parent, NestedAt(warps, parent), sink);
      var r := Attach(m, parent, NestedAt(warps, parent), sink);
      forall x | x in r.paths ensures Located(r, sun, warps, x) {
        AttachLocates(m, parent, sun, warps, sink, x);
      }
    } else {
      AttachOneSkips(m, parent, warps);
      SkippedPaths(m, AttachOne(m, parent, warps), sun, warps, parent);
    }
  }

  /** What a recursive merge guarantees about the nested paths. */
  lemma {:induction false} NestedPaths(warps: map<CellPath, Sun>, parent: nat)
    requires WarpsValid(warps) && [parent] in warps
    ensures var nested := NestedAt(warps, parent);
            && PathsUnique(nested) && (forall id :: id in nested.paths ==> |nested.paths[id]| >= 1)
            && (forall id :: id in nested.paths ==> Located(nested, warps[[parent]], Sub(warps, parent), id))
    decreases |warps|, 0, 0
  {
    hide Merge, Valid, Sub, Sound, Located, PathsUnique, PathKeysBelow;
    SubIsSmaller(warps, parent);
    SubWarpsValid(warps, parent);
    MergePaths(warps[[parent]], Sub(warps, parent));
  }

  lemma SubWarpsValid(warps: map<CellPath, Sun>, parent: nat)
    requires WarpsValid(warps)
    ensures WarpsValid(Sub(warps, parent))
  {
  }

  lemma SkippedPaths(m: Merged, r: Merged, sun: Sun, warps: map<CellPath, Sun>, bound: nat)
    requires PathsInv(m, sun, warps, bound) && r == m.(unknown := r.unknown)
    ensures PathsInv(r, sun, warps, bound + 1)
  {
    hide Leads, Valid;
    forall id | id in r.paths ensures Located(r, sun, warps, id) {
      assert Located(m, sun, warps, id);
      var original, c :| LocatedAs(m, sun, warps, id, original, c);
      assert LocatedAs(r, sun, warps, id, original, c);
    }
  }

  lemma {:induction false} AttachAllPaths(m: Merged, parents: seq<nat>, sun: Sun, warps: map<CellPath, Sun>, bound: nat)
    requires PathsInv(m, sun, warps, bound) && WarpsValid(warps) && Ascending(parents)
    requires forall p :: p in parents ==> [p] in warps && bound <= p
    ensures exists b :: PathsInv(AttachAll(m, parents, warps), sun, warps, b)
    decreases |warps|, 2, |parents|
  {
    hide AttachOne, WarpsValid, Sound, PathKeysBelow, PathsUnique, Located;
    if parents == [] {
      assert PathsInv(AttachAll(m, parents, warps), sun, warps, bound);
    } else {
      var p, rest := parents[0], parents[1..];
      assert forall i :: 0 <= i < |rest| ==> rest[i] == parents[i + 1];
      assert forall q :: q in rest ==> q in parents && p + 1 <= q;
      assert p in parents;
      BoundGrows(m, sun, warps, bound, p);
      AttachOnePaths(m, p, sun, warps);
      AttachAllPaths(AttachOne(m, p, warps), rest, sun, warps, p + 1);
      assert AttachAll(m, parents, warps) == AttachAll(AttachOne(m, p, warps), rest, warps);
    }
  }

  lemma BoundGrows(m: Merged, sun: Sun, warps: map<CellPath, Sun>, a: nat, b: nat)
    requires PathsInv(m, sun, warps, a) && a <= b
    ensures PathsInv(m, sun, warps, b)
  {
    hide Sound, Located, PathsUnique;
  }

  /**
   * In the merged graph exactly the warp cells have a path, no two share one, and each path, followed through the
   * appearances, ends at the cell of which the merged one is the renamed copy.
   */
  lemma {:induction false} MergePaths(sun: Sun, warps: map<CellPath, Sun>)
    requires Valid(sun.nodes, sun.edges) && WarpsValid(warps)
    ensures exists b :: PathsOk(Merge(sun, warps), sun, warps, b)
    ensures PathsUnique(Merge(sun, warps))
    ensures forall id :: id in Merge(sun, warps).paths ==>
      |Merge(sun, warps).paths[id]| >= 1 && Located(Merge(sun, warps), sun, warps, id)
    decreases |warps|, 3, 0
  {
    hide WarpsValid, Sound, PathsUnique, Located, Valid, PathKeysBelow;
    InitialSound(sun);
    InitialPaths(sun, warps);
    InitialKeys(sun);
    SortedParents(warps);
    AttachAllPaths(Initial(sun), Sorted(TopLevel(warps)), sun, warps, 0);
    var b :| PathsInv(Merge(sun, warps), sun, warps, b);
    assert PathsOk(Merge(sun, warps), sun, warps, b);
  }

  lemma InitialKeys(sun: Sun)
    requires Sound(Initial(sun))
    ensures PathKeysBelow(Initial(sun))
  {
    var m := Initial(sun);
    forall id | id in m.paths ensures id < m.nextId {
      var d :| d in sun.nodes && d.Warp() && d.id == id;
      assert d in m.cells && d.id in Ids(m.cells);
    }
  }
}
