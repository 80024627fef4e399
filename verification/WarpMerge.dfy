/**
 * Merging nested warp suns into one main graph: every finalized nested sun is merged recursively, checked, renamed
 * to fresh ids and ports, and attached to its boundary cell by one connector edge.
 */
module WarpMerge {
  import opened Basics
  import opened Sorting

  /** What a cell carries besides its id, its input ports and the journey of its nested sun. */
  type Payload = nat
  type CellPath = seq<nat>

  /** The nil journey marks a cell that is no warp cell. */
  const NIL: nat := 0

  datatype Cell = Cell(id: nat, ports: seq<nat>, journey: nat, payload: Payload) {
    predicate Warp() {
      journey != NIL
    }
  }

  datatype Edge = Edge(source: nat, target: nat, port: nat)
  datatype Sun = Sun(nodes: seq<Cell>, edges: seq<Edge>, finalized: bool)

  /**
   * The state of a merge. `paths` locates every merged warp cell by the cells that lead to it; `unknown` lists the
   * warp suns keyed by a cell that does not exist.
   */
  datatype Merged = Merged(
    cells: seq<Cell>,
    edges: seq<Edge>,
    nextId: nat,
    nextPort: nat,
    paths: map<nat, CellPath>,
    unknown: seq<nat>)

  // ---------------------------------------------------------------------------
  // Graphs
  // ---------------------------------------------------------------------------

  function Ids(cells: seq<Cell>): set<nat> {
    set c | c in cells :: c.id
  }

  function Ports(cells: seq<Cell>): set<nat> {
    set c, q | c in cells && q in c.ports :: q
  }

  predicate Distinct(s: seq<nat>) {
    forall i, j :: 0 <= i < j < |s| ==> s[i] != s[j]
  }

  predicate UniqueIds(cells: seq<Cell>) {
    forall i, j :: 0 <= i < j < |cells| ==> cells[i].id != cells[j].id
  }

  predicate Apart(s: seq<nat>, t: seq<nat>) {
    forall q :: q in s ==> q !in t
  }

  predicate UniquePorts(cells: seq<Cell>) {
    && (forall i :: 0 <= i < |cells| ==> Distinct(cells[i].ports))
    && (forall i, j :: 0 <= i < j < |cells| ==> Apart(cells[i].ports, cells[j].ports))
  }

  predicate Owns(cells: seq<Cell>, id: nat, port: nat) {
    exists c :: c in cells && c.id == id && port in c.ports
  }

  predicate EdgeOk(cells: seq<Cell>, e: Edge) {
    e.source in Ids(cells) && e.target in Ids(cells) && e.source != e.target && Owns(cells, e.target, e.port)
  }

  /** The structural rules that `validate` checks. */
  predicate Valid(cells: seq<Cell>, edges: seq<Edge>) {
    UniqueIds(cells) && UniquePorts(cells) && forall e :: e in edges ==> EdgeOk(cells, e)
  }

  // ---------------------------------------------------------------------------
  // Sorting
  // ---------------------------------------------------------------------------

  predicate Ascending(s: seq<nat>) {
    forall i, j :: 0 <= i < j < |s| ==> s[i] < s[j]
  }

  function Elems(s: seq<nat>): set<nat> {
    set x | x in s
  }

  /** Sorting and dropping repeats, one element at a time. */
  function Insert(s: seq<nat>, x: nat): seq<nat> {
    if s == [] then [x]
    else if x < s[0] then [x] + s
    else if x == s[0] then s
    else [s[0]] + Insert(s[1..], x)
  }

  lemma ElemsOfPrepended(x: nat, s: seq<nat>)
    ensures Elems([x] + s) == Elems(s) + {x}
  {
  }

  lemma PrependAscends(x: nat, s: seq<nat>)
    requires Ascending(s) && forall y :: y in Elems(s) ==> x < y
    ensures Ascending([x] + s)
  {
    assert forall i :: 0 <= i < |s| ==> s[i] in Elems(s);
  }

  lemma InsertedFirst(s: seq<nat>, x: nat)
    requires Ascending(s) && (s == [] || x < s[0])
    ensures Ascending([x] + s) && Elems([x] + s) == Elems(s) + {x}
  {
    ElemsOfPrepended(x, s);
    PrependAscends(x, s);
  }

  lemma InsertedLater(s: seq<nat>, rest: seq<nat>, x: nat)
    requires Ascending(s) && s != [] && s[0] < x && Ascending(rest) && Elems(rest) == Elems(s[1..]) + {x}
    ensures Ascending([s[0]] + rest) && Elems([s[0]] + rest) == Elems(s) + {x}
  {
    ElemsOfPrepended(s[0], rest);
    PrependAscends(s[0], rest);
    ElemsOfPrepended(s[0], s[1..]);
    assert s == [s[0]] + s[1..];
  }

  lemma {:induction false} InsertAscends(s: seq<nat>, x: nat)
    requires Ascending(s)
    ensures Ascending(Insert(s, x)) && Elems(Insert(s, x)) == Elems(s) + {x}
  {
    if s == [] || x < s[0] {
      InsertedFirst(s, x);
    } else if x > s[0] {
      InsertAscends(s[1..], x);
      InsertedLater(s, Insert(s[1..], x), x);
    } else {
      assert Elems(s) == Elems(s) + {x};
    }
  }

  lemma AscendingUnique(s: seq<nat>, t: seq<nat>)
    requires Ascending(s) && Ascending(t) && Elems(s) == Elems(t)
    ensures s == t
  {
    if s != [] { assert s[0] in Elems(t); }
    if t != [] { assert t[0] in Elems(s); }
    if s != [] && t != [] {
      assert s[0] == t[0];
      assert s == [s[0]] + s[1..] && t == [t[0]] + t[1..];
      assert Elems(s[1..]) == Elems(s) - {s[0]} && Elems(t[1..]) == Elems(t) - {t[0]};
      AscendingUnique(s[1..], t[1..]);
    }
  }

  lemma SortedExists(S: set<nat>)
    ensures exists s :: Ascending(s) && Elems(s) == S
  {
    if S == {} {
      assert Elems([]) == S;
    } else {
      var x :| x in S;
      SortedExists(S - {x});
      var s :| Ascending(s) && Elems(s) == S - {x};
      InsertAscends(s, x);
      assert Elems(Insert(s, x)) == S;
    }
  }

  /** The elements of `S` in ascending order. */
  ghost function Sorted(S: set<nat>): (s: seq<nat>)
    ensures Ascending(s) && Elems(s) == S
  {
    SortedExists(S);
    var s :| Ascending(s) && Elems(s) == S;
    s
  }

  function ById(): (Cell, Cell) -> bool {
    (a: Cell, b: Cell) => a.id < b.id
  }

  /** The stable sort by id. */
  function SortById(cells: seq<Cell>): (r: seq<Cell>)
    ensures |r| == |cells| && forall x :: x in r <==> x in cells
  {
    SortedMembers(cells, ById());
    SortBy(cells, ById())
  }

  // ---------------------------------------------------------------------------
  // Merging
  // ---------------------------------------------------------------------------

  /** One more than the largest of `S`. */
  function Above(s: seq<nat>): (r: nat)
    ensures forall x :: x in s ==> x < r
  {
    assert s != [] ==> s == s[..|s| - 1] + [s[|s| - 1]];
    if s == [] then 1
    else if s[|s| - 1] >= Above(s[..|s| - 1]) then s[|s| - 1] + 1
    else Above(s[..|s| - 1])
  }

  function IdList(cells: seq<Cell>): (r: seq<nat>)
    ensures |r| == |cells| && forall i :: 0 <= i < |r| ==> r[i] == cells[i].id
  {
    seq(|cells|, i requires 0 <= i < |cells| => cells[i].id)
  }

  function PortList(cells: seq<Cell>): (r: seq<nat>)
    ensures forall q :: q in r <==> q in Ports(cells)
  {
    if cells == [] then []
    else
      assert cells == cells[..|cells| - 1] + [cells[|cells| - 1]];
      PortList(cells[..|cells| - 1]) + cells[|cells| - 1].ports
  }

  /** `s[i]` becomes `base + i`. */
  function Numbering(s: seq<nat>, base: nat): (m: map<nat, nat>)
    ensures m.Keys == Elems(s)
  {
    if s == [] then map[]
    else
      assert s == s[..|s| - 1] + [s[|s| - 1]];
      assert Elems(s) == Elems(s[..|s| - 1]) + {s[|s| - 1]};
      Numbering(s[..|s| - 1], base)[s[|s| - 1] := base + |s| - 1]
  }

  /** The nested expansions of `parent`, keyed relative to its sun. */
  function Sub(warps: map<CellPath, Sun>, parent: nat): map<CellPath, Sun> {
    map path | path in (set k | k in warps && |k| > 1 && k[0] == parent :: k[1..]) && [parent] + path in warps ::
      warps[[parent] + path]
  }

  function TopLevel(warps: map<CellPath, Sun>): set<nat> {
    set k | k in warps && |k| == 1 :: k[0]
  }

  function IdMap(nested: Merged, base: nat): map<nat, nat> {
    Numbering(IdList(nested.cells), base)
  }

  ghost function PortMap(nested: Merged, base: nat): map<nat, nat> {
    Numbering(Sorted(Ports(nested.cells)), base)
  }

  /** The cells without outgoing edges. */
  function Sinks(sun: Sun): (r: seq<nat>)
    ensures forall id :: id in r ==> id in Ids(sun.nodes) && forall e :: e in sun.edges ==> e.source != id
  {
    SinksOf(sun.nodes, sun.edges)
  }

  function SinksOf(nodes: seq<Cell>, edges: seq<Edge>): (r: seq<nat>)
    ensures forall id :: id in r <==> id in Ids(nodes) && forall e :: e in edges ==> e.source != id
  {
    if nodes == [] then []
    else
      var front, last := nodes[..|nodes| - 1], nodes[|nodes| - 1];
      assert nodes == front + [last];
      SinksOf(front, edges) + if exists e :: e in edges && e.source == last.id then [] else [last.id]
  }

  function RenamePorts(ports: seq<nat>, renaming: map<nat, nat>): (r: seq<nat>)
    requires forall q :: q in ports ==> q in renaming
    ensures |r| == |ports| && forall k :: 0 <= k < |r| ==> r[k] == renaming[ports[k]]
  {
    seq(|ports|, k requires 0 <= k < |ports| => renaming[ports[k]])
  }

  predicate Covers(cells: seq<Cell>, ids: map<nat, nat>, ports: map<nat, nat>) {
    Ids(cells) <= ids.Keys && Ports(cells) <= ports.Keys
  }

  function RenameCell(c: Cell, ids: map<nat, nat>, ports: map<nat, nat>): (r: Cell)
    requires c.id in ids && forall q :: q in c.ports ==> q in ports
  {
    c.(id := ids[c.id], ports := RenamePorts(c.ports, ports))
  }

  function RenameCells(cells: seq<Cell>, ids: map<nat, nat>, ports: map<nat, nat>): (r: seq<Cell>)
    requires Covers(cells, ids, ports)
    ensures |r| == |cells|
  {
    if cells == [] then []
    else
      assert cells == cells[..|cells| - 1] + [cells[|cells| - 1]];
      RenameCells(cells[..|cells| - 1], ids, ports) + [RenameCell(cells[|cells| - 1], ids, ports)]
  }

  predicate Mapped(e: Edge, ids: map<nat, nat>, ports: map<nat, nat>) {
    e.source in ids && e.target in ids && e.port in ports
  }

  function RenameEdge(e: Edge, ids: map<nat, nat>, ports: map<nat, nat>): (r: Edge)
    requires Mapped(e, ids, ports)
  {
    Edge(ids[e.source], ids[e.target], ports[e.port])
  }

  function RenameEdges(edges: seq<Edge>, ids: map<nat, nat>, ports: map<nat, nat>): (r: seq<Edge>)
    requires forall e :: e in edges ==> Mapped(e, ids, ports)
    ensures |r| == |edges|
  {
    if edges == [] then []
    else
      RenameEdges(edges[..|edges| - 1], ids, ports) + [RenameEdge(edges[|edges| - 1], ids, ports)]
  }

  /** The first cell called `id` gets one more port. */
  function AddPort(cells: seq<Cell>, id: nat, port: nat): (r: seq<Cell>)
    ensures |r| == |cells| && Ids(r) == Ids(cells)
  {
    if cells == [] then []
    else
      assert cells == [cells[0]] + cells[1..];
      IdsOfSum([cells[0]], cells[1..]);
      if cells[0].id == id then
        IdsOfSum([cells[0].(ports := cells[0].ports + [port])], cells[1..]);
        [cells[0].(ports := cells[0].ports + [port])] + cells[1..]
      else
        IdsOfSum([cells[0]], AddPort(cells[1..], id, port));
        [cells[0]] + AddPort(cells[1..], id, port)
  }

  predicate Injective(m: map<nat, nat>) {
    forall x, y :: x in m && y in m && m[x] == m[y] ==> x == y
  }

  lemma {:induction false} NumberingAt(s: seq<nat>, base: nat)
    requires Distinct(s)
    ensures forall i :: 0 <= i < |s| ==> Numbering(s, base)[s[i]] == base + i
    decreases |s|
  {
    if s != [] {
      var front := s[..|s| - 1];
      assert s == front + [s[|s| - 1]];
      NumberingAt(front, base);
      forall i | 0 <= i < |s| ensures Numbering(s, base)[s[i]] == base + i {
        if i < |s| - 1 { assert s[i] == front[i]; }
      }
    }
  }

  lemma NumberingHit(s: seq<nat>, base: nat, x: nat) returns (i: nat)
    requires Distinct(s) && x in s
    ensures i < |s| && s[i] == x && Numbering(s, base)[x] == base + i
  {
    hide Distinct, Numbering;
    NumberingAt(s, base);
    i :| 0 <= i < |s| && s[i] == x;
    assert Numbering(s, base)[s[i]] == base + i;
  }

  /** Distinct names get distinct numbers from `base` on. */
  lemma NumberingFresh(s: seq<nat>, base: nat)
    requires Distinct(s)
    ensures Injective(Numbering(s, base))
    ensures forall x :: x in Numbering(s, base) ==> base <= Numbering(s, base)[x] < base + |s|
  {
    hide Distinct, Numbering;
    var m := Numbering(s, base);
    forall x | x in m ensures base <= m[x] < base + |s| {
      var i := NumberingHit(s, base, x);
    }
    forall x, y | x in m && y in m && m[x] == m[y] ensures x == y {
      var i := NumberingHit(s, base, x);
      var j := NumberingHit(s, base, y);
    }
  }

  /** The maps cover a valid graph, so no lookup of an id or a port can miss, and they rename it apart. */
  lemma LookupsHit(nested: Merged, idBase: nat, portBase: nat)
    requires Valid(nested.cells, nested.edges)
    ensures Covers(nested.cells, IdMap(nested, idBase), PortMap(nested, portBase))
    ensures forall e :: e in nested.edges ==> Mapped(e, IdMap(nested, idBase), PortMap(nested, portBase))
    ensures Injective(IdMap(nested, idBase)) && Injective(PortMap(nested, portBase))
  {
    NumberingFresh(IdList(nested.cells), idBase);
    NumberingFresh(Sorted(Ports(nested.cells)), portBase);
    var ids := IdList(nested.cells);
    forall c | c in nested.cells ensures c.id in Elems(ids) {
      var i :| 0 <= i < |nested.cells| && nested.cells[i] == c;
      assert ids[i] == c.id;
    }
  }

  /** The renamed nested graph. */
  ghost function Block(m: Merged, nested: Merged): (r: (seq<Cell>, seq<Edge>))
    requires Valid(nested.cells, nested.edges)
  {
    LookupsHit(nested, m.nextId, m.nextPort);
    var ids, ports := IdMap(nested, m.nextId), PortMap(nested, m.nextPort);
    (RenameCells(nested.cells, ids, ports), RenameEdges(nested.edges, ids, ports))
  }

  /** The dedicated input port of the sink. */
  ghost function Connector(m: Merged, nested: Merged): nat {
    m.nextPort + |Sorted(Ports(nested.cells))|
  }

  /** The merged id of the sink. */
  ghost function Landing(m: Merged, nested: Merged, sink: nat): nat
    requires Valid(nested.cells, nested.edges) && sink in Ids(nested.cells)
  {
    LookupsHit(nested, m.nextId, m.nextPort);
    IdMap(nested, m.nextId)[sink]
  }

  /** Joins a checked nested graph under fresh ids and ports, and connects `parent` to its sink. */
  ghost function Attach(m: Merged, parent: nat, nested: Merged, sink: nat): Merged
    requires Valid(nested.cells, nested.edges) && sink in Ids(nested.cells)
  {
    LookupsHit(nested, m.nextId, m.nextPort);
    var (cells, edges) := Block(m, nested);
    Merged(
      AddPort(m.cells + cells, Landing(m, nested, sink), Connector(m, nested)),
      m.edges + edges + [Edge(parent, Landing(m, nested, sink), Connector(m, nested))],
      m.nextId + |nested.cells|,
      Connector(m, nested) + 1,
      m.paths + Prefixed(nested.paths, IdMap(nested, m.nextId), parent),
      m.unknown)
  }

  /** The merged ids of the nested warp cells. */
  function MergedIds(paths: map<nat, CellPath>, ids: map<nat, nat>): set<nat> {
    set id | id in paths && id in ids :: ids[id]
  }

  /** The nested warp cell that became `merged`. */
  ghost function LocalId(paths: map<nat, CellPath>, ids: map<nat, nat>, merged: nat): (id: nat)
    requires merged in MergedIds(paths, ids)
    ensures id in paths && id in ids && ids[id] == merged
  {
    var id :| id in paths && id in ids && ids[id] == merged;
    id
  }

  /** The nested paths, led by `parent` and keyed by the merged ids. */
  ghost function Prefixed(paths: map<nat, CellPath>, ids: map<nat, nat>, parent: nat): map<nat, CellPath> {
    map merged | merged in MergedIds(paths, ids) :: [parent] + paths[LocalId(paths, ids, merged)]
  }

  lemma IdsOfSum(a: seq<Cell>, b: seq<Cell>)
    ensures Ids(a + b) == Ids(a) + Ids(b)
  {
  }

  lemma SubIsSmaller(warps: map<CellPath, Sun>, parent: nat)
    requires [parent] in warps
    ensures |Sub(warps, parent)| < |warps|
  {
    var keys := set path | path in Sub(warps, parent).Keys :: [parent] + path;
    PrefixedCount(Sub(warps, parent).Keys, parent);
    assert [parent] !in keys;
    assert keys <= warps.Keys - {[parent]};
    CardinalityMonotone(keys, warps.Keys - {[parent]});
    assert |warps.Keys| == |warps|;
    assert |Sub(warps, parent).Keys| == |Sub(warps, parent)|;
  }

  lemma {:induction false} PrefixedCount(paths: set<CellPath>, parent: nat)
    ensures |set path | path in paths :: [parent] + path| == |paths|
  {
    if paths != {} {
      var p :| p in paths;
      PrefixedCount(paths - {p}, parent);
      var rest := set path | path in paths - {p} :: [parent] + path;
      assert [parent] + p !in rest by {
        assert forall q :: q in paths - {p} ==> ([parent] + q)[1..] == q && ([parent] + p)[1..] == p;
      }
      assert (set path | path in paths :: [parent] + path) == rest + {[parent] + p};
    }
  }

  lemma {:induction false} CardinalityMonotone<T>(a: set<T>, b: set<T>)
    requires a <= b
    ensures |a| <= |b|
  {
    if a != {} {
      var x :| x in a;
      CardinalityMonotone(a - {x}, b - {x});
    }
  }

  function Initial(sun: Sun): Merged {
    Merged(SortById(sun.nodes), sun.edges, Above(IdList(sun.nodes)), Above(PortList(sun.nodes)),
      OwnPaths(sun.nodes), [])
  }

  /** Every warp cell is locatable by its own id. */
  function OwnPaths(cells: seq<Cell>): map<nat, CellPath> {
    map id | id in (set c | c in cells && c.Warp() :: c.id) :: [id]
  }

  lemma SortKeepsCells(cells: seq<Cell>)
    ensures Ids(SortById(cells)) == Ids(cells) && Ports(SortById(cells)) == Ports(cells)
  {
  }

  lemma SortedParents(warps: map<CellPath, Sun>)
    ensures forall p :: p in Sorted(TopLevel(warps)) <==> [p] in warps
  {
    var S := TopLevel(warps);
    forall p ensures p in Sorted(S) <==> [p] in warps {
      assert p in Sorted(S) <==> p in Elems(Sorted(S));
      if [p] in warps { assert [p][0] in S; }
      if p in S {
        var k :| k in warps && |k| == 1 && k[0] == p;
        assert k == [p];
      }
    }
  }

  /** `merge_appearance`. */
  ghost function Merge(sun: Sun, warps: map<CellPath, Sun>): (r: Merged)
    ensures Ids(sun.nodes) <= Ids(r.cells)
    decreases |warps|, 2, 0
  {
    SortKeepsCells(sun.nodes);
    SortedParents(warps);
    AttachAll(Initial(sun), Sorted(TopLevel(warps)), warps)
  }

  ghost function AttachAll(m: Merged, parents: seq<nat>, warps: map<CellPath, Sun>): (r: Merged)
    requires forall p :: p in parents ==> [p] in warps
    ensures Ids(m.cells) <= Ids(r.cells)
    decreases |warps|, 1, |parents|
  {
    if parents == [] then m else AttachAll(AttachOne(m, parents[0], warps), parents[1..], warps)
  }

  /** A nested sun joins when it is finalized, free of errors, and has exactly one sink. */
  ghost predicate Joins(warp: Sun, nested: Merged) {
    nested.unknown == [] && Valid(nested.cells, nested.edges) && |Sinks(warp)| == 1
  }

  ghost function AttachOne(m: Merged, parent: nat, warps: map<CellPath, Sun>): (r: Merged)
    requires [parent] in warps
    ensures Ids(m.cells) <= Ids(r.cells)
    decreases |warps|, 0, 0
  {
    var warp := warps[[parent]];
    SubIsSmaller(warps, parent);
    if !warp.finalized then m
    else if parent !in Ids(m.cells) then m.(unknown := m.unknown + [parent])
    else
      var nested := Merge(warp, Sub(warps, parent));
      if !Joins(warp, nested) then m
      else
        assert Sinks(warp)[0] in Sinks(warp);
        LookupsHit(nested, m.nextId, m.nextPort);
        IdsOfSum(m.cells, Block(m, nested).0);
        Attach(m, parent, nested, Sinks(warp)[0])
  }
}
