/** Sorting accepted tensors into the order of their ports. */
module TensorOrder {
  import opened Basics
  import opened Schema
  import opened Sorting

  // ---------------------------------------------------------------------------
  // Port order
  // ---------------------------------------------------------------------------

  /** The first port with this name, or past the end. */
  function Position(ports: seq<Port>, name: string): (i: nat)
    ensures i <= |ports| && (HasPort(ports, name) ==> i < |ports| && ports[i].name == name)
  {
    if ports == [] then 0
    else if ports[0].name == name then 0
    else
      assert ports == [ports[0]] + ports[1..];
      1 + Position(ports[1..], name)
  }

  function PortLess(ports: seq<Port>): (Tensor, Tensor) -> bool {
    (t: Tensor, u: Tensor) => Position(ports, t.name) < Position(ports, u.name)
  }

  /** `sort_by_key` with the position of the tensor's port. */
  function ByPort(ports: seq<Port>, tensors: seq<Tensor>): seq<Tensor> {
    SortBy(tensors, PortLess(ports))
  }

  /** One tensor per port, in the order of the ports. */
  predicate InPortOrder(ports: seq<Port>, tensors: seq<Tensor>, ordered: seq<Tensor>) {
    && |ordered| == |ports| == |tensors|
    && forall i :: 0 <= i < |ports| ==> ordered[i].name == ports[i].name && ordered[i] in tensors
  }

  function NameSet(tensors: seq<Tensor>): set<string> {
    set tensor | tensor in tensors :: tensor.name
  }

  /** Names are distinct exactly when there are as many of them as tensors. */
  lemma {:induction false} DistinctByCount(tensors: seq<Tensor>)
    ensures |NameSet(tensors)| <= |tensors|
    ensures DistinctTensors(tensors) <==> |NameSet(tensors)| == |tensors|
    decreases |tensors|
  {
    if tensors != [] {
      var front, last := tensors[..|tensors| - 1], tensors[|tensors| - 1];
      assert tensors == front + [last];
      DistinctByCount(front);
      assert NameSet(tensors) == NameSet(front) + {last.name};
      DistinctLast(front, last);
    }
  }

  lemma DistinctLast(front: seq<Tensor>, last: Tensor)
    ensures DistinctTensors(front + [last]) <==> DistinctTensors(front) && last.name !in NameSet(front)
  {
    var all := front + [last];
    if last.name in NameSet(front) {
      var t :| t in front && t.name == last.name;
      var i :| 0 <= i < |front| && front[i] == t;
      assert all[i].name == all[|front|].name;
    } else if DistinctTensors(front) {
      assert forall i :: 0 <= i < |front| ==> front[i] in front && front[i].name in NameSet(front);
    } else {
      var i, j :| 0 <= i < j < |front| && front[i].name == front[j].name;
      assert all[i].name == all[j].name;
    }
  }

  lemma DistinctPermuted(a: seq<Tensor>, b: seq<Tensor>)
    requires |a| == |b| && (forall t :: t in a <==> t in b) && DistinctTensors(a)
    ensures DistinctTensors(b)
  {
    DistinctByCount(a);
    DistinctByCount(b);
    assert NameSet(a) == NameSet(b);
  }

  /** Strictly ascending numbers below `n` that hit every number below `n` are 0, 1, 2, ... */
  lemma {:induction false} AllHit(s: seq<nat>, n: nat, i: nat)
    requires forall a, b :: 0 <= a < b < |s| ==> s[a] < s[b]
    requires forall v :: 0 <= v < n ==> v in s
    requires i < n
    ensures i < |s| && s[i] == i
    decreases i
  {
    assert i in s;
    var j :| 0 <= j < |s| && s[j] == i;
    AtLeast(s, j);
    if j < i { AllHit(s, n, j); }
  }

  lemma {:induction false} AtLeast(s: seq<nat>, j: nat)
    requires forall a, b :: 0 <= a < b < |s| ==> s[a] < s[b]
    requires j < |s|
    ensures s[j] >= j
    decreases j
  {
    if j > 0 { AtLeast(s, j - 1); }
  }

  lemma CountUp(s: seq<nat>, n: nat)
    requires forall a, b :: 0 <= a < b < |s| ==> s[a] < s[b]
    requires forall v :: 0 <= v < n ==> v in s
    requires forall i :: 0 <= i < |s| ==> s[i] < n
    ensures |s| == n && forall i :: 0 <= i < n ==> s[i] == i
  {
    if n > 0 { AllHit(s, n, n - 1); }
    if |s| > n { AtLeast(s, n); }
    forall i | 0 <= i < n ensures i < |s| && s[i] == i { AllHit(s, n, i); }
  }

  function Positions(ports: seq<Port>, tensors: seq<Tensor>): (r: seq<nat>)
    ensures |r| == |tensors| && forall i :: 0 <= i < |r| ==> r[i] == Position(ports, tensors[i].name)
  {
    seq(|tensors|, i requires 0 <= i < |tensors| => Position(ports, tensors[i].name))
  }

  lemma MatchedPosition(ports: seq<Port>, tensors: seq<Tensor>, i: nat)
    requires NamesMatch(ports, tensors) && i < |tensors|
    ensures Position(ports, tensors[i].name) < |ports|
    ensures ports[Position(ports, tensors[i].name)].name == tensors[i].name
  {
    assert HasPort(ports, tensors[i].name);
  }

  lemma PositionsAscend(ports: seq<Port>, tensors: seq<Tensor>, a: nat, b: nat)
    requires NamesMatch(ports, tensors) && SortedBy(tensors, PortLess(ports)) && a < b < |tensors|
    ensures Position(ports, tensors[a].name) < Position(ports, tensors[b].name)
  {
    MatchedPosition(ports, tensors, a);
    MatchedPosition(ports, tensors, b);
    assert tensors[a].name != tensors[b].name;
    assert !PortLess(ports)(tensors[b], tensors[a]);
  }

  lemma PositionsHit(ports: seq<Port>, tensors: seq<Tensor>, v: nat)
    requires DistinctPorts(ports) && NamesMatch(ports, tensors) && v < |ports|
    ensures v in Positions(ports, tensors)
  {
    assert HasTensor(tensors, ports[v].name);
    var t :| t in tensors && t.name == ports[v].name;
    var i :| 0 <= i < |tensors| && tensors[i] == t;
    MatchedPosition(ports, tensors, i);
    assert Positions(ports, tensors)[i] == v;
  }

  /** Sorting matching tensors by their port's position puts one tensor at every port. */
  lemma ByPortIsPortOrder(ports: seq<Port>, tensors: seq<Tensor>)
    requires DistinctPorts(ports) && NamesMatch(ports, tensors)
    ensures InPortOrder(ports, tensors, ByPort(ports, tensors))
  {
    hide NamesMatch, DistinctPorts, SortedBy, Position, SortBy;
    var ordered := ByPort(ports, tensors);
    SortByIsSorted(tensors, PortLess(ports));
    SortedMembers(tensors, PortLess(ports));
    NamesMatchPermuted(ports, tensors, ordered);
    var positions := Positions(ports, ordered);
    forall a, b | 0 <= a < b < |positions| ensures positions[a] < positions[b] { PositionsAscend(ports, ordered, a, b); }
    forall v | 0 <= v < |ports| ensures v in positions { PositionsHit(ports, ordered, v); }
    forall i | 0 <= i < |positions| ensures positions[i] < |ports| { MatchedPosition(ports, ordered, i); }
    CountUp(positions, |ports|);
    forall i | 0 <= i < |ports| ensures ordered[i].name == ports[i].name && ordered[i] in tensors {
      MatchedPosition(ports, ordered, i);
    }
  }

  lemma NamesMatchPermuted(ports: seq<Port>, a: seq<Tensor>, b: seq<Tensor>)
    requires NamesMatch(ports, a) && |a| == |b| && forall t :: t in a <==> t in b
    ensures NamesMatch(ports, b)
  {
    DistinctPermuted(a, b);
    forall port | port in ports ensures HasTensor(b, port.name) {
      var t :| t in a && t.name == port.name;
      assert t in b;
    }
  }

  /** With distinct ports, conforming tensors and ports are one to one. */
  lemma ConformingIsOneToOne(ports: seq<Port>, tensors: seq<Tensor>)
    requires DistinctPorts(ports) && Conforms(ports, tensors)
    ensures |ports| == |tensors|
    ensures forall port :: port in ports ==> HasTensor(tensors, port.name)
    ensures forall a, b :: a in tensors && b in tensors && a.name == b.name ==> a == b
  {
    ByPortIsPortOrder(ports, tensors);
  }
}
