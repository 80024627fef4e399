/**
 * Where the edges of a merged graph lead, read off the suns that went into it; and so when a merged graph is acyclic,
 * whatever cells the edges of those suns name.
 */
module WarpMergeFlows {
  import opened Basics
  import opened Sorting
  import opened WarpMerge
  import opened WarpMergeProofs
  import opened WarpMergeResults
  import opened WarpMergePlaces
  import opened WarpMergeDangling

  // ---------------------------------------------------------------------------
  // Walks
  // ---------------------------------------------------------------------------

  lemma ReachesItself(edges: seq<Edge>, a: nat)
    ensures Reaches(edges, a, a)
  {
    assert Leads(edges, [a], a, a);
  }

  lemma ReachesOn(edges: seq<Edge>, a: nat, b: nat, c: nat)
    requires Reaches(edges, a, b) && HasEdge(edges, b, c)
    ensures Reaches(edges, a, c)
  {
    var path :| Leads(edges, path, a, b);
    var more := path + [c];
    forall i | 0 <= i < |more| - 1 ensures HasEdge(edges, more[i], more[i + 1]) {
      if i < |path| - 1 { assert HasEdge(edges, path[i], path[i + 1]); }
    }
    assert Leads(edges, more, a, c);
  }

  /** Walks of `edges`, renamed, are walks of `more`. */
  lemma {:induction false} ReachesMapped(edges: seq<Edge>, more: seq<Edge>, ids: nat -> nat, path: seq<nat>, a: nat)
    requires |path| >= 1 && Walk(edges, path) && Reaches(more, a, ids(path[0]))
    requires forall x, y :: HasEdge(edges, x, y) ==> HasEdge(more, ids(x), ids(y))
    ensures Reaches(more, a, ids(path[|path| - 1]))
    decreases |path|
  {
    hide Reaches, HasEdge;
    if |path| > 1 {
      var front := path[..|path| - 1];
      forall i | 0 <= i < |front| - 1 ensures HasEdge(edges, front[i], front[i + 1]) {
        assert HasEdge(edges, path[i], path[i + 1]);
      }
      ReachesMapped(edges, more, ids, front, a);
      assert HasEdge(edges, path[|path| - 2], path[|path| - 2 + 1]);
      ReachesOn(more, a, ids(path[|path| - 2]), ids(path[|path| - 1]));
    }
  }

  lemma ReachesThrough(edges: seq<Edge>, more: seq<Edge>, a: nat, b: nat, c: nat)
    requires Reaches(more, a, b) && Reaches(edges, b, c)
    requires forall x, y :: HasEdge(edges, x, y) ==> HasEdge(more, x, y)
    ensures Reaches(more, a, c)
  {
    hide HasEdge;
    var path :| Leads(edges, path, b, c);
    ReachesMapped(edges, more, x => x, path, a);
  }

  // ---------------------------------------------------------------------------
  // One attachment
  // ---------------------------------------------------------------------------

  /** From `a` into the place, by an edge that names one of its cells or by the connector, and on to the nested cell `y`. */
  ghost predicate Lands(m: Merged, nested: Merged, place: Place, a: nat, y: nat) {
    || (exists w :: w in place.ids && Reaches(m.edges, a, place.ids[w]) && Reaches(nested.edges, w, y))
    || (Reaches(m.edges, a, place.parent) && Reaches(nested.edges, place.sink, y))
  }

  ghost predicate LandsOn(m: Merged, nested: Merged, place: Place, a: nat, b: nat) {
    if b in place.ids.Values then exists y :: y in place.ids && place.ids[y] == b && Lands(m, nested, place, a, y)
    else Reaches(m.edges, a, b)
  }

  /** The three kinds of edges after an attachment. */
  lemma AttachedHasEdge(m: Merged, parent: nat, nested: Merged, sink: nat, a: nat, b: nat)
    requires Valid(nested.cells, nested.edges) && sink in Ids(nested.cells)
    ensures var place := PlaceAt(m, parent, nested, sink);
            && place.sink in place.ids
            && (HasEdge(Attach(m, parent, nested, sink).edges, a, b) <==>
                || HasEdge(m.edges, a, b) || (a == place.parent && b == place.ids[place.sink])
                || CopiedEdge(nested, place, a, b))
  {
    hide Valid, Attach, PlaceAt, Covers, Injective;
    var place, r := PlaceAt(m, parent, nested, sink), Attach(m, parent, nested, sink);
    PlaceAtIsPlace(m, parent, nested, sink);
    forall e ensures e in r.edges <==> e in m.edges || e == ConnectorEdge(place) || EdgeImage(e, nested, place) {
      AttachedEdgesExactly(m, parent, nested, sink, e);
    }
    if CopiedEdge(nested, place, a, b) {
      var v, w :| v in place.ids && w in place.ids && place.ids[v] == a && place.ids[w] == b && HasEdge(nested.edges, v, w);
      var e0 :| e0 in nested.edges && e0.source == v && e0.target == w;
      assert EdgeImage(RenameEdge(e0, place.ids, place.ports), nested, place);
    }
    if HasEdge(r.edges, a, b) && !HasEdge(m.edges, a, b) {
      var e :| e in r.edges && e.source == a && e.target == b;
      if e != ConnectorEdge(place) {
        var e0 :| e0 in nested.edges && e == RenameEdge(e0, place.ids, place.ports);
        assert HasEdge(nested.edges, e0.source, e0.target);
      }
    }
    assert HasEdge(r.edges, place.parent, place.ids[place.sink]) by { assert ConnectorEdge(place) in r.edges; }
  }

  /** The copy of a nested edge. */
  predicate CopiedEdge(nested: Merged, place: Place, a: nat, b: nat) {
    exists v, w :: v in place.ids && w in place.ids && place.ids[v] == a && place.ids[w] == b && HasEdge(nested.edges, v, w)
  }

  /** A place whose ids are above all that `m` names. */
  predicate ClearOf(m: Merged, place: Place) {
    && (forall x :: x in place.ids.Values ==> m.nextId <= x)
    && (forall e :: e in m.edges ==> e.source < m.nextId)
    && Injective(place.ids) && place.sink in place.ids && place.parent < m.nextId
  }

  lemma AttachesAbove(m: Merged, parent: nat, nested: Merged, sink: nat)
    requires Sourced(m) && Valid(nested.cells, nested.edges) && parent in Ids(m.cells) && sink in Ids(nested.cells)
    ensures ClearOf(m, PlaceAt(m, parent, nested, sink))
  {
    hide Valid, PlaceAt, Covers, UniqueIds, UniquePorts;
    PlaceAtIsPlace(m, parent, nested, sink);
    var c :| c in m.cells && c.id == parent;
    assert PlaceAt(m, parent, nested, sink).parent == parent by { PlaceParent(m, parent, nested, sink); }
  }

  lemma PlaceParent(m: Merged, parent: nat, nested: Merged, sink: nat)
    ensures PlaceAt(m, parent, nested, sink).parent == parent
  {
  }

  /** What an edge after an attachment may be, for the walks below. */
  ghost predicate Grows(m: Merged, nested: Merged, place: Place, edges: seq<Edge>)
    requires place.sink in place.ids
  {
    forall a, b :: HasEdge(edges, a, b) <==>
      || HasEdge(m.edges, a, b) || (a == place.parent && b == place.ids[place.sink]) || CopiedEdge(nested, place, a, b)
  }

  lemma LandsOnward(m: Merged, nested: Merged, place: Place, edges: seq<Edge>, a: nat, b: nat, c: nat)
    requires ClearOf(m, place) && Grows(m, nested, place, edges)
    requires LandsOn(m, nested, place, a, b) && HasEdge(edges, b, c)
    ensures LandsOn(m, nested, place, a, c)
  {
    hide Reaches, HasEdge;
    if HasEdge(m.edges, b, c) {
      SourceBelow(m, place, b, c);
      ReachesOn(m.edges, a, b, c);
      if c in place.ids.Values {
        var y :| y in place.ids && place.ids[y] == c;
        ReachesItself(nested.edges, y);
        assert Lands(m, nested, place, a, y);
      }
    } else if b == place.parent && c == place.ids[place.sink] {
      ReachesItself(nested.edges, place.sink);
      assert Lands(m, nested, place, a, place.sink);
    } else {
      var v, w :| v in place.ids && w in place.ids && place.ids[v] == b && place.ids[w] == c && HasEdge(nested.edges, v, w);
      var y :| y in place.ids && place.ids[y] == b && Lands(m, nested, place, a, y);
      assert y == v;
      LandsNext(m, nested, place, a, v, w);
    }
  }

  lemma SourceBelow(m: Merged, place: Place, a: nat, b: nat)
    requires ClearOf(m, place) && HasEdge(m.edges, a, b)
    ensures a !in place.ids.Values
  {
  }

  lemma LandsNext(m: Merged, nested: Merged, place: Place, a: nat, v: nat, w: nat)
    requires Lands(m, nested, place, a, v) && HasEdge(nested.edges, v, w)
    ensures Lands(m, nested, place, a, w)
  {
    hide Reaches, HasEdge;
    if x :| x in place.ids && Reaches(m.edges, a, place.ids[x]) && Reaches(nested.edges, x, v) {
      ReachesOn(nested.edges, x, v, w);
    } else {
      ReachesOn(nested.edges, place.sink, v, w);
    }
  }

  /** Every walk after an attachment lands like that. */
  lemma {:induction false} WalkLands(m: Merged, nested: Merged, place: Place, edges: seq<Edge>, path: seq<nat>)
    requires ClearOf(m, place) && Grows(m, nested, place, edges) && |path| >= 1 && Walk(edges, path)
    ensures LandsOn(m, nested, place, path[0], path[|path| - 1])
    decreases |path|
  {
    hide Reaches, HasEdge, Lands, ClearOf, Grows;
    if |path| == 1 {
      StaysPut(m, nested, place, path[0]);
    } else {
      var front := path[..|path| - 1];
      forall i | 0 <= i < |front| - 1 ensures HasEdge(edges, front[i], front[i + 1]) {
        assert HasEdge(edges, path[i], path[i + 1]);
      }
      WalkLands(m, nested, place, edges, front);
      assert HasEdge(edges, path[|path| - 2], path[|path| - 2 + 1]);
      LandsOnward(m, nested, place, edges, path[0], path[|path| - 2], path[|path| - 1]);
    }
  }

  lemma StaysPut(m: Merged, nested: Merged, place: Place, a: nat)
    ensures LandsOn(m, nested, place, a, a)
  {
    hide Reaches;
    ReachesItself(m.edges, a);
    if a in place.ids.Values {
      var y :| y in place.ids && place.ids[y] == a;
      ReachesItself(nested.edges, y);
      assert Lands(m, nested, place, a, y);
    }
  }

  function Renaming(place: Place): nat -> nat {
    (x: nat) => if x in place.ids then place.ids[x] else 0
  }

  /** And wherever a walk lands like that there is one. */
  lemma LandingWalks(m: Merged, nested: Merged, place: Place, edges: seq<Edge>, a: nat, b: nat)
    requires place.sink in place.ids && Grows(m, nested, place, edges) && LandsOn(m, nested, place, a, b)
    requires forall x, y :: HasEdge(nested.edges, x, y) ==> x in place.ids && y in place.ids
    ensures Reaches(edges, a, b)
  {
    hide Reaches, HasEdge;
    ReachesItself(m.edges, b);
    if b in place.ids.Values {
      var y :| y in place.ids && place.ids[y] == b && Lands(m, nested, place, a, y);
      if w :| w in place.ids && Reaches(m.edges, a, place.ids[w]) && Reaches(nested.edges, w, y) {
        ReachesGrown(m, nested, place, edges, a, place.ids[w]);
        InsidePlace(m, nested, place, edges, a, w, y);
      } else {
        ReachesGrown(m, nested, place, edges, a, place.parent);
        assert HasEdge(edges, place.parent, place.ids[place.sink]);
        ReachesOn(edges, a, place.parent, place.ids[place.sink]);
        InsidePlace(m, nested, place, edges, a, place.sink, y);
      }
    } else {
      ReachesGrown(m, nested, place, edges, a, b);
    }
  }

  lemma ReachesGrown(m: Merged, nested: Merged, place: Place, edges: seq<Edge>, a: nat, b: nat)
    requires place.sink in place.ids && Grows(m, nested, place, edges) && Reaches(m.edges, a, b)
    ensures Reaches(edges, a, b)
  {
    hide Reaches, HasEdge;
    ReachesItself(edges, a);
    ReachesThrough(m.edges, edges, a, a, b);
  }

  lemma InsidePlace(m: Merged, nested: Merged, place: Place, edges: seq<Edge>, a: nat, w: nat, y: nat)
    requires place.sink in place.ids && Grows(m, nested, place, edges) && w in place.ids && y in place.ids
    requires forall x, y :: HasEdge(nested.edges, x, y) ==> x in place.ids && y in place.ids
    requires Reaches(edges, a, place.ids[w]) && Reaches(nested.edges, w, y)
    ensures Reaches(edges, a, place.ids[y])
  {
    hide HasEdge;
    var path :| Leads(nested.edges, path, w, y);
    forall v, z | HasEdge(nested.edges, v, z) ensures HasEdge(edges, Renaming(place)(v), Renaming(place)(z)) {
      assert CopiedEdge(nested, place, place.ids[v], place.ids[z]);
    }
    ReachesMapped(nested.edges, edges, Renaming(place), path, a);
  }

  /** Where walks lead after an attachment, exactly. */
  lemma AttachedReaches(m: Merged, parent: nat, nested: Merged, sink: nat, a: nat, b: nat)
    requires Sourced(m) && Valid(nested.cells, nested.edges) && parent in Ids(m.cells) && sink in Ids(nested.cells)
    ensures Reaches(Attach(m, parent, nested, sink).edges, a, b)
      <==> LandsOn(m, nested, PlaceAt(m, parent, nested, sink), a, b)
  {
    hide Valid, Attach, PlaceAt, Covers, UniqueIds, UniquePorts, LandsOn, HasEdge;
    var place, edges := PlaceAt(m, parent, nested, sink), Attach(m, parent, nested, sink).edges;
    AttachesAbove(m, parent, nested, sink);
    forall x, y ensures HasEdge(edges, x, y) <==>
      || HasEdge(m.edges, x, y) || (x == place.parent && y == place.ids[place.sink]) || CopiedEdge(nested, place, x, y)
    {
      AttachedHasEdge(m, parent, nested, sink, x, y);
    }
    if path :| Leads(edges, path, a, b) { WalkLands(m, nested, place, edges, path); }
    if LandsOn(m, nested, place, a, b) {
      NestedNamed(m, parent, nested, sink);
      LandingWalks(m, nested, place, edges, a, b);
    }
  }

  lemma NestedNamed(m: Merged, parent: nat, nested: Merged, sink: nat)
    requires Valid(nested.cells, nested.edges) && sink in Ids(nested.cells)
    ensures var place := PlaceAt(m, parent, nested, sink);
      forall x, y :: HasEdge(nested.edges, x, y) ==> x in place.ids && y in place.ids
  {
    hide Valid, PlaceAt, Covers;
    PlaceAtIsPlace(m, parent, nested, sink);
  }

  // ---------------------------------------------------------------------------
  // Read off the suns
  // ---------------------------------------------------------------------------

  /** An edge that starts at a cell which the sun does not have. */
  predicate Dangling(sun: Sun, e: Edge) {
    e in sun.edges && e.source !in Ids(sun.nodes)
  }

  /** Inside the nested sun of the parent at position `i`. */
  ghost predicate Within(warps: map<CellPath, Sun>, i: nat, a: nat, b: nat)
    requires i < |Parents(warps)| && [Parents(warps)[i]] in warps
    decreases |warps|, 0, 0, 0
  {
    SubIsSmaller(warps, Parents(warps)[i]);
    Flows(warps[[Parents(warps)[i]]], Sub(warps, Parents(warps)[i]), a, b)
  }

  /**
   * From `a` to the nested cell `y` in the place of the parent at position `i`, without dangling edges: along the sun's
   * own edges to a cell of the place and on inside it, or to the parent and through the connector.
   */
  ghost predicate Arrives(sun: Sun, warps: map<CellPath, Sun>, i: nat, a: nat, y: nat)
    requires i < |Parents(warps)| && Joined(sun, warps, i)
    decreases |warps|, 1, i, 1
  {
    var place := PlaceNo(sun, warps, i);
    || (exists w :: w in place.ids && Reaches(sun.edges, a, place.ids[w]) && Within(warps, i, w, y))
    || (Hops(sun, warps, i, a, place.parent) && Within(warps, i, place.sink, y))
  }

  /** From `a` to `b` without dangling edges, where `b` lies in one of the first `k` places or in none. */
  ghost predicate Hops(sun: Sun, warps: map<CellPath, Sun>, k: nat, a: nat, b: nat)
    requires k <= |Parents(warps)|
    decreases |warps|, 1, k, 0
  {
    if k == 0 then Reaches(sun.edges, a, b)
    else if Joined(sun, warps, k - 1) && b in PlaceNo(sun, warps, k - 1).ids.Values then
      var ids := PlaceNo(sun, warps, k - 1).ids;
      exists y :: y in ids && ids[y] == b && Arrives(sun, warps, k - 1, a, y)
    else Hops(sun, warps, k - 1, a, b)
  }

  /** From `a` to `b` along these dangling edges in this order, and by hops in between. */
  ghost predicate Chained(sun: Sun, warps: map<CellPath, Sun>, chain: seq<Edge>, a: nat, b: nat)
    decreases |warps|, 2, |chain|, 0
  {
    if chain == [] then Hops(Grounded(sun), warps, |Parents(warps)|, a, b)
    else
      && Dangling(sun, chain[0]) && Hops(Grounded(sun), warps, |Parents(warps)|, a, chain[0].source)
      && Chained(sun, warps, chain[1..], chain[0].target, b)
  }

  ghost predicate Flows(sun: Sun, warps: map<CellPath, Sun>, a: nat, b: nat)
    decreases |warps|, 3, 0, 0
  {
    exists chain :: Chained(sun, warps, chain, a, b)
  }

  /** The sun's own edges make no cycle, no dangling edge leads back to its start, and so for every sun that joins. */
  ghost predicate AllAcyclic(sun: Sun, warps: map<CellPath, Sun>)
    decreases |warps|
  {
    && Acyclic(Grounded(sun).edges)
    && (forall e :: Dangling(sun, e) ==> !Flows(sun, warps, e.target, e.source))
    && forall i: nat :: i < |Parents(warps)| && Joined(sun, warps, i) ==> (
         SubIsSmaller(warps, Parents(warps)[i]);
         AllAcyclic(warps[[Parents(warps)[i]]], Sub(warps, Parents(warps)[i])))
  }

  /** The names of a place: the nested cells, in their merged order, get the next numbers that are free. */
  lemma HandedOut(sun: Sun, warps: map<CellPath, Sun>, i: nat)
    requires UniqueCells(sun) && i < |Parents(warps)| && Joined(sun, warps, i)
    ensures var (ids, cells) := (PlaceNo(sun, warps, i).ids, NestedNo(warps, i).cells);
      && ids.Keys == Ids(cells)
      && forall j :: 0 <= j < |cells| ==>
        cells[j].id in ids && ids[cells[j].id] == Initial(sun).nextId + JoinedCells(sun, warps, i) + j
  {
    hide UniqueIds, UniquePorts, Parents, Attaches, Before, Initial, JoinedCells, Sinks, NestedAt, Numbering;
    var m, nested := Before(sun, warps, i), NestedNo(warps, i);
    NextIdUpTo(sun, warps, i);
    AttachesFacts(m, Parents(warps)[i], warps);
    NumberedCells(nested.cells, m.nextId);
  }

  lemma NumberedCells(cells: seq<Cell>, base: nat)
    requires UniqueIds(cells)
    ensures var ids := Numbering(IdList(cells), base);
      ids.Keys == Ids(cells) && forall j :: 0 <= j < |cells| ==> cells[j].id in ids && ids[cells[j].id] == base + j
  {
    var list := IdList(cells);
    NumberingAt(list, base);
    forall j | 0 <= j < |cells| ensures cells[j].id in Elems(list) { assert list[j] == cells[j].id && list[j] in list; }
    forall x ensures x in Elems(list) <==> x in Ids(cells) {
      if x in Elems(list) {
        var j :| 0 <= j < |list| && list[j] == x;
        assert cells[j] in cells && cells[j].id == x;
      }
    }
  }

  // --- hops are the walks of the grounded merge ---

  /** A name above those of the first `k` places is in none of them. */
  lemma {:induction false} HopsBeyond(sun: Sun, warps: map<CellPath, Sun>, k: nat, a: nat, b: nat)
    requires UniqueCells(sun) && k <= |Parents(warps)| && Before(sun, warps, k).nextId <= b
    ensures Hops(sun, warps, k, a, b) <==> Reaches(sun.edges, a, b)
  {
    hide Before, Joined, PlaceNo, PlaceOf, UniqueCells, Parents, Reaches, Arrives, Sinks;
    if k > 0 {
      NumbersGrow(sun, warps, k - 1, k);
      HopsBeyond(sun, warps, k - 1, a, b);
      if Joined(sun, warps, k - 1) { PlaceFacts(sun, warps, k - 1); }
    }
  }

  /** Landing, with the walks before and inside the place exchanged for hops and flows. */
  lemma LandsArrives(sun: Sun, warps: map<CellPath, Sun>, i: nat, a: nat, y: nat)
    requires i < |Parents(warps)| && Joined(sun, warps, i)
    requires var place := PlaceNo(sun, warps, i);
      && (forall w :: w in place.ids ==>
        (Reaches(Before(sun, warps, i).edges, a, place.ids[w]) <==> Reaches(sun.edges, a, place.ids[w])))
      && (Reaches(Before(sun, warps, i).edges, a, place.parent) <==> Hops(sun, warps, i, a, place.parent))
    requires forall w :: Reaches(NestedNo(warps, i).edges, w, y) <==> Within(warps, i, w, y)
    ensures Lands(Before(sun, warps, i), NestedNo(warps, i), PlaceNo(sun, warps, i), a, y)
      <==> Arrives(sun, warps, i, a, y)
  {
    hide Joined, Before, PlaceNo, NestedNo, Reaches, Hops, Within, Parents;
  }

  lemma {:induction false} HopsExactly(sun: Sun, warps: map<CellPath, Sun>, k: nat, a: nat, b: nat)
    requires UniqueCells(sun) && KnownSources(sun) && k <= |Parents(warps)|
    ensures Hops(sun, warps, k, a, b) <==> Reaches(Before(sun, warps, k).edges, a, b)
    decreases |warps|, 0, k
  {
    hide Before, Joined, UniqueCells, KnownSources, Parents, Sinks, Attach, Named, Sourced, Valid, Reaches, Within, Arrives,
      Lands, PlaceNo;
    if k == 0 {
      StartsAtInitial(sun, warps);
    } else if !Joined(sun, warps, k - 1) {
      SkippedStep(sun, warps, k - 1);
      HopsExactly(sun, warps, k - 1, a, b);
    } else {
      var i, m, place := k - 1, Before(sun, warps, k - 1), PlaceNo(sun, warps, k - 1);
      JoinedReaches(sun, warps, i, a, b);
      HopsExactly(sun, warps, i, a, b);
      HopsExactly(sun, warps, i, a, place.parent);
      forall w | w in place.ids ensures Reaches(m.edges, a, place.ids[w]) <==> Reaches(sun.edges, a, place.ids[w]) {
        PlaceAboveBefore(sun, warps, i, w);
        HopsExactly(sun, warps, i, a, place.ids[w]);
        HopsBeyond(sun, warps, i, a, place.ids[w]);
      }
      forall y ensures Lands(m, NestedNo(warps, i), place, a, y) <==> Arrives(sun, warps, i, a, y) {
        forall w ensures Reaches(NestedNo(warps, i).edges, w, y) <==> Within(warps, i, w, y) {
          WithinExactly(sun, warps, i, w, y);
        }
        LandsArrives(sun, warps, i, a, y);
      }
    }
  }

  lemma JoinedReaches(sun: Sun, warps: map<CellPath, Sun>, i: nat, a: nat, b: nat)
    requires UniqueCells(sun) && KnownSources(sun) && i < |Parents(warps)| && Joined(sun, warps, i)
    ensures [Parents(warps)[i]] in warps
    ensures Reaches(Before(sun, warps, i + 1).edges, a, b)
      <==> LandsOn(Before(sun, warps, i), NestedNo(warps, i), PlaceNo(sun, warps, i), a, b)
  {
    hide Before, Joined, UniqueCells, KnownSources, Parents, Sinks, Attach, Named, Sourced, Valid, Reaches, LandsOn, PlaceAt;
    JoinedStep(sun, warps, i);
    SourcedUpTo(sun, warps, i);
    var p := Parents(warps)[i];
    AttachedReaches(Before(sun, warps, i), p, NestedNo(warps, i), Sinks(warps[[p]])[0], a, b);
  }

  lemma PlaceAboveBefore(sun: Sun, warps: map<CellPath, Sun>, i: nat, w: nat)
    requires UniqueCells(sun) && i < |Parents(warps)| && Joined(sun, warps, i) && w in PlaceNo(sun, warps, i).ids
    ensures Before(sun, warps, i).nextId <= PlaceNo(sun, warps, i).ids[w]
  {
    hide Before, Joined, PlaceNo, PlaceOf, UniqueCells, Parents, Sinks;
    PlaceFacts(sun, warps, i);
    assert PlaceNo(sun, warps, i).ids[w] in PlaceNo(sun, warps, i).ids.Values;
  }

  lemma WithinExactly(sun: Sun, warps: map<CellPath, Sun>, i: nat, a: nat, b: nat)
    requires i < |Parents(warps)| && Joined(sun, warps, i)
    ensures Reaches(NestedNo(warps, i).edges, a, b) <==> Within(warps, i, a, b)
    decreases |warps|, 0, 0
  {
    hide Before, Parents, Sub, Reaches, Flows, UniqueCells, Valid, Sinks, Merge;
    var p := Parents(warps)[i];
    SubIsSmaller(warps, p);
    AttachesFacts(Before(sun, warps, i), p, warps);
    MergedUnique(warps[[p]], Sub(warps, p));
    FlowsExactly(warps[[p]], Sub(warps, p), a, b);
  }

  // --- flows are the walks of the merge ---

  lemma GroundedHops(sun: Sun, warps: map<CellPath, Sun>, a: nat, b: nat)
    requires UniqueCells(sun)
    ensures Hops(Grounded(sun), warps, |Parents(warps)|, a, b) <==> Reaches(Merge(Grounded(sun), warps).edges, a, b)
    decreases |warps|, 1, 0
  {
    hide Hops, Merge, Before, Grounded, Reaches, Parents, UniqueIds, UniquePorts;
    HopsExactly(Grounded(sun), warps, |Parents(warps)|, a, b);
    BeforeAll(Grounded(sun), warps);
  }

  /** The merged edges are the grounded ones and the dangling ones. */
  lemma GroundedHasEdge(sun: Sun, warps: map<CellPath, Sun>, a: nat, b: nat)
    requires UniqueCells(sun)
    ensures HasEdge(Merge(sun, warps).edges, a, b) <==>
      || HasEdge(Merge(Grounded(sun), warps).edges, a, b)
      || exists e :: Dangling(sun, e) && e.source == a && e.target == b
  {
    hide Merge, UniqueCells, Grounded;
    forall e ensures e in Merge(sun, warps).edges <==> e in Merge(Grounded(sun), warps).edges || e in sun.edges {
      GroundedEdges(sun, warps, e);
    }
    GroundedKept(sun, warps);
  }

  lemma {:induction false} ChainedReaches(sun: Sun, warps: map<CellPath, Sun>, chain: seq<Edge>, a: nat, b: nat)
    requires UniqueCells(sun) && Chained(sun, warps, chain, a, b)
    ensures Reaches(Merge(sun, warps).edges, a, b)
    decreases |warps|, 2, |chain|
  {
    hide Hops, Merge, UniqueCells, Grounded, Reaches, Parents, HasEdge;
    var all, grounded := Merge(sun, warps).edges, Merge(Grounded(sun), warps).edges;
    forall x, y | HasEdge(grounded, x, y) ensures HasEdge(all, x, y) { GroundedHasEdge(sun, warps, x, y); }
    ReachesItself(all, a);
    if chain == [] {
      GroundedHops(sun, warps, a, b);
      ReachesThrough(grounded, all, a, a, b);
    } else {
      var e := chain[0];
      GroundedHops(sun, warps, a, e.source);
      ReachesThrough(grounded, all, a, a, e.source);
      GroundedHasEdge(sun, warps, e.source, e.target);
      ReachesOn(all, a, e.source, e.target);
      ChainedReaches(sun, warps, chain[1..], e.target, b);
      ReachesThrough(all, all, a, e.target, b);
    }
  }

  lemma ReachesFrom(edges: seq<Edge>, a: nat, b: nat, c: nat)
    requires HasEdge(edges, a, b) && Reaches(edges, b, c)
    ensures Reaches(edges, a, c)
  {
    hide Reaches, HasEdge;
    ReachesItself(edges, a);
    ReachesOn(edges, a, a, b);
    ReachesThrough(edges, edges, a, b, c);
  }

  /** One more edge of the grounded merge in front of a chain. */
  lemma ChainedFrom(sun: Sun, warps: map<CellPath, Sun>, chain: seq<Edge>, a: nat, b: nat, c: nat)
    requires UniqueCells(sun) && HasEdge(Merge(Grounded(sun), warps).edges, a, b) && Chained(sun, warps, chain, b, c)
    ensures Chained(sun, warps, chain, a, c)
    decreases |warps|, 2, 0
  {
    hide Hops, Merge, UniqueCells, Grounded, Reaches, Parents, HasEdge;
    var next := if chain == [] then c else chain[0].source;
    GroundedHops(sun, warps, b, next);
    ReachesFrom(Merge(Grounded(sun), warps).edges, a, b, next);
    GroundedHops(sun, warps, a, next);
  }

  lemma {:induction false} WalkChains(sun: Sun, warps: map<CellPath, Sun>, path: seq<nat>) returns (chain: seq<Edge>)
    requires UniqueCells(sun) && |path| >= 1 && Walk(Merge(sun, warps).edges, path)
    ensures Chained(sun, warps, chain, path[0], path[|path| - 1])
    decreases |warps|, 3, |path|
  {
    hide Hops, Merge, UniqueCells, Grounded, Reaches, Parents, HasEdge, Dangling;
    GroundedHops(sun, warps, path[0], path[0]);
    ReachesItself(Merge(Grounded(sun), warps).edges, path[0]);
    if |path| == 1 {
      chain := [];
    } else {
      var rest := path[1..];
      forall i | 0 <= i < |rest| - 1 ensures HasEdge(Merge(sun, warps).edges, rest[i], rest[i + 1]) {
        assert HasEdge(Merge(sun, warps).edges, path[i + 1], path[i + 1 + 1]);
      }
      chain := WalkChains(sun, warps, rest);
      assert HasEdge(Merge(sun, warps).edges, path[0], path[0 + 1]);
      GroundedHasEdge(sun, warps, path[0], path[1]);
      if HasEdge(Merge(Grounded(sun), warps).edges, path[0], path[1]) {
        ChainedFrom(sun, warps, chain, path[0], path[1], path[|path| - 1]);
      } else {
        var e :| Dangling(sun, e) && e.source == path[0] && e.target == path[1];
        assert ([e] + chain)[1..] == chain;
        chain := [e] + chain;
      }
    }
  }

  /** One cell leads to another in the merged graph exactly when it flows there through the suns. */
  lemma FlowsExactly(sun: Sun, warps: map<CellPath, Sun>, a: nat, b: nat)
    requires UniqueCells(sun)
    ensures Flows(sun, warps, a, b) <==> Reaches(Merge(sun, warps).edges, a, b)
    decreases |warps|, 4, 0
  {
    hide Chained, Merge, UniqueCells;
    if chain :| Chained(sun, warps, chain, a, b) { ChainedReaches(sun, warps, chain, a, b); }
    if path :| Leads(Merge(sun, warps).edges, path, a, b) { var chain := WalkChains(sun, warps, path); }
  }

  // ---------------------------------------------------------------------------
  // A sun whose merged graph is in order has unique names
  // ---------------------------------------------------------------------------

  /** Adding a port takes nothing away. */
  lemma {:induction false} AddPortExtends(cells: seq<Cell>, id: nat, port: nat)
    ensures forall i :: 0 <= i < |cells| ==>
      AddPort(cells, id, port)[i].id == cells[i].id && cells[i].ports <= AddPort(cells, id, port)[i].ports
    decreases |cells|
  {
    if cells != [] && cells[0].id != id {
      AddPortExtends(cells[1..], id, port);
      var r := AddPort(cells, id, port);
      forall i | 0 <= i < |cells| ensures r[i].id == cells[i].id && cells[i].ports <= r[i].ports {
        if i > 0 { assert r[i] == AddPort(cells[1..], id, port)[i - 1] && cells[i] == cells[1..][i - 1]; }
      }
    }
  }

  lemma AddPortUniqueBack(cells: seq<Cell>, id: nat, port: nat)
    requires UniqueIds(AddPort(cells, id, port)) && UniquePorts(AddPort(cells, id, port))
    ensures UniqueIds(cells) && UniquePorts(cells)
  {
    hide AddPort;
    var r := AddPort(cells, id, port);
    AddPortExtends(cells, id, port);
    forall i | 0 <= i < |cells| ensures Distinct(cells[i].ports) { FewerPorts(cells[i].ports, r[i].ports); }
    forall i, j | 0 <= i < j < |cells| ensures cells[i].id != cells[j].id && Apart(cells[i].ports, cells[j].ports) {
      assert r[i].id != r[j].id && Apart(r[i].ports, r[j].ports);
      FewerPortsApart(cells[i].ports, r[i].ports, cells[j].ports, r[j].ports);
    }
  }

  lemma FewerPorts(s: seq<nat>, t: seq<nat>)
    requires s <= t && Distinct(t)
    ensures Distinct(s)
  {
    forall i, j | 0 <= i < j < |s| ensures s[i] != s[j] { assert s[i] == t[i] && s[j] == t[j]; }
  }

  lemma FewerPortsApart(s: seq<nat>, s': seq<nat>, t: seq<nat>, t': seq<nat>)
    requires s <= s' && t <= t' && Apart(s', t')
    ensures Apart(s, t)
  {
    forall q | q in s ensures q !in t { assert q in s' && (q in t ==> q in t'); }
  }

  lemma AttachOneUniqueBack(m: Merged, parent: nat, warps: map<CellPath, Sun>)
    requires [parent] in warps && UniqueIds(AttachOne(m, parent, warps).cells) && UniquePorts(AttachOne(m, parent, warps).cells)
    ensures UniqueIds(m.cells) && UniquePorts(m.cells)
  {
    hide AttachOne, Attaches, Valid, UniqueIds, UniquePorts, Sinks, NestedAt, Connector, Landing;
    if Attaches(m, parent, warps) {
      AttachesFacts(m, parent, warps);
      AttachOneJoins(m, parent, warps);
      var nested, sink := NestedAt(warps, parent), Sinks(warps[[parent]])[0];
      AddPortUniqueBack(m.cells + Block(m, nested).0, Landing(m, nested, sink), Connector(m, nested));
      SplitUnique(m.cells, Block(m, nested).0);
    } else {
      AttachOneSkips(m, parent, warps);
    }
  }

  lemma {:induction false} AttachAllUniqueBack(m: Merged, parents: seq<nat>, warps: map<CellPath, Sun>)
    requires forall p :: p in parents ==> [p] in warps
    requires UniqueIds(AttachAll(m, parents, warps).cells) && UniquePorts(AttachAll(m, parents, warps).cells)
    ensures UniqueIds(m.cells) && UniquePorts(m.cells)
    decreases |parents|
  {
    hide AttachOne, UniqueIds, UniquePorts;
    if parents != [] {
      AttachAllUniqueBack(AttachOne(m, parents[0], warps), parents[1..], warps);
      AttachOneUniqueBack(m, parents[0], warps);
    }
  }

  lemma SortedUniqueBack(cells: seq<Cell>)
    requires UniqueIds(SortById(cells)) && UniquePorts(SortById(cells))
    ensures UniqueIds(cells) && UniquePorts(cells)
  {
    var r := SortById(cells);
    SortedPairwiseBack(cells, ById(), OtherId());
    SortedPairwiseBack(cells, ById(), OtherPorts());
    forall i | 0 <= i < |cells| ensures Distinct(cells[i].ports) {
      assert cells[i] in r;
    }
    forall i, j | 0 <= i < j < |cells| ensures cells[i].id != cells[j].id && Apart(cells[i].ports, cells[j].ports) {
      assert OtherId()(cells[i], cells[j]) && OtherPorts()(cells[i], cells[j]);
    }
  }

  lemma MergedUnique(sun: Sun, warps: map<CellPath, Sun>)
    requires Valid(Merge(sun, warps).cells, Merge(sun, warps).edges)
    ensures UniqueCells(sun)
  {
    hide AttachAll, UniqueIds, UniquePorts, SortById;
    SortedParents(warps);
    ValidIsUnique(Merge(sun, warps).cells, Merge(sun, warps).edges);
    AttachAllUniqueBack(Initial(sun), Sorted(TopLevel(warps)), warps);
    SortedUniqueBack(sun.nodes);
  }

  // ---------------------------------------------------------------------------
  // Cycles
  // ---------------------------------------------------------------------------

  /**
   * Whatever cells the edges of a sun name: the merged graph is acyclic exactly when it is without the dangling edges,
   * and no dangling edge flows back to its start.
   */
  lemma AcyclicDangling(sun: Sun, warps: map<CellPath, Sun>)
    requires UniqueCells(sun)
    ensures Acyclic(Merge(sun, warps).edges) <==>
      Acyclic(Merge(Grounded(sun), warps).edges) && forall e :: Dangling(sun, e) ==> !Flows(sun, warps, e.target, e.source)
  {
    hide Merge, UniqueCells, Grounded, Acyclic, Reaches, Flows;
    CyclesSplit(sun, warps);
    forall e: Edge ensures Flows(sun, warps, e.target, e.source) <==> Reaches(Merge(sun, warps).edges, e.target, e.source) {
      FlowsExactly(sun, warps, e.target, e.source);
    }
  }

  /** A merged graph is acyclic exactly when each sun in it is: without its dangling edges, and with them. */
  lemma {:induction false} AcyclicRecursively(sun: Sun, warps: map<CellPath, Sun>)
    requires UniqueCells(sun)
    ensures Acyclic(Merge(sun, warps).edges) <==> AllAcyclic(sun, warps)
    decreases |warps|
  {
    hide Merge, Joined, UniqueIds, UniquePorts, Grounded, Acyclic, Parents, Sub, Flows, Dangling, Before;
    AcyclicDangling(sun, warps);
    AcyclicExactly(Grounded(sun), warps);
    forall i: nat | i < |Parents(warps)|
      ensures Joined(Grounded(sun), warps, i) <==> Joined(sun, warps, i)
      ensures [Parents(warps)[i]] in warps && |Sub(warps, Parents(warps)[i])| < |warps|
      ensures Joined(sun, warps, i) ==>
        (Acyclic(NestedNo(warps, i).edges) <==> AllAcyclic(warps[[Parents(warps)[i]]], Sub(warps, Parents(warps)[i])))
    {
      var p := Parents(warps)[i];
      SamePlaces(sun, Grounded(sun), warps, i);
      JoinedIsAttached(sun, warps, i);
      SubIsSmaller(warps, p);
      if Joined(sun, warps, i) {
        AttachesFacts(Before(sun, warps, i), p, warps);
        MergedUnique(warps[[p]], Sub(warps, p));
        AcyclicRecursively(warps[[p]], Sub(warps, p));
      }
    }
  }
}
