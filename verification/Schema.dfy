/** The schema checker: tensors against the ports of a contract, with symbolic dimensions unified across all of them. */
module Schema {
  import opened Basics

  /** The element types of the dense tensor codec. */
  datatype Dtype =
    | Boolean | UInt8 | UInt16 | UInt32 | UInt64 | Int8 | Int16 | Int32 | Int64
    | F8E4M3 | F8E5M2 | F16 | BF16 | F32 | F64 | F4 | F6E2M3 | F6E3M2 | F8E8M0 | C64

  type Sizes = map<string, nat>

  datatype DtypeConstraint = AnyDtype | Exact(dtype: Dtype) | OneOf(dtypes: seq<Dtype>) {
    predicate Accepts(dtype: Dtype): (r: bool)
      ensures r <==> AnyDtype? || this == Exact(dtype) || (OneOf? && exists i :: 0 <= i < |dtypes| && dtypes[i] == dtype)
    {
      match this
      case AnyDtype => true
      case Exact(expected) => expected == dtype
      case OneOf(expected) => dtype in expected
    }
  }

  datatype Dimension = Static(size: nat) | Symbolic(symbol: string) | Dynamic

  datatype Port = Port(name: string, dimensions: seq<Dimension>, dtype: DtypeConstraint)

  datatype Tensor = Tensor(name: string, dtype: Dtype, shape: seq<nat>, data: Bytes)

  datatype Error =
    | DuplicatePort(name: string)
    | DuplicateTensor(name: string)
    | UnexpectedTensor(name: string)
    | MissingTensor(name: string)
    | DtypeMismatch(name: string, constraint: DtypeConstraint, dtype: Dtype)
    | RankMismatch(name: string, expected: nat, actual: nat)
    | DimensionMismatch(name: string, axis: nat, expected: nat, actual: nat)
    | SymbolicDimensionMismatch(symbol: string, first: nat, second: nat)

  // ---------------------------------------------------------------------------
  // Meaning
  // ---------------------------------------------------------------------------

  predicate DistinctPorts(ports: seq<Port>) {
    forall i, j :: 0 <= i < j < |ports| ==> ports[i].name != ports[j].name
  }

  predicate DistinctTensors(tensors: seq<Tensor>) {
    forall i, j :: 0 <= i < j < |tensors| ==> tensors[i].name != tensors[j].name
  }

  predicate HasPort(ports: seq<Port>, name: string) {
    exists port :: port in ports && port.name == name
  }

  predicate HasTensor(tensors: seq<Tensor>, name: string) {
    exists tensor :: tensor in tensors && tensor.name == name
  }

  predicate NamesMatch(ports: seq<Port>, tensors: seq<Tensor>) {
    && DistinctTensors(tensors)
    && (forall tensor :: tensor in tensors ==> HasPort(ports, tensor.name))
    && (forall port :: port in ports ==> HasTensor(tensors, port.name))
  }

  /** One axis under an assignment of sizes to labels. */
  predicate AxisFits(rule: Dimension, size: nat, sizes: Sizes) {
    match rule
    case Static(expected) => expected == size
    case Symbolic(symbol) => symbol in sizes && sizes[symbol] == size
    case Dynamic => true
  }

  predicate Fits(rules: seq<Dimension>, shape: seq<nat>, sizes: Sizes) {
    |rules| == |shape| && forall k :: 0 <= k < |rules| ==> AxisFits(rules[k], shape[k], sizes)
  }

  predicate PortFits(port: Port, tensors: seq<Tensor>, sizes: Sizes) {
    forall tensor :: tensor in tensors && tensor.name == port.name ==>
      port.dtype.Accepts(tensor.dtype) && Fits(port.dimensions, tensor.shape, sizes)
  }

  predicate AllFit(ports: seq<Port>, tensors: seq<Tensor>, sizes: Sizes) {
    forall i :: 0 <= i < |ports| ==> PortFits(ports[i], tensors, sizes)
  }

  /** Names match one to one, dtypes are accepted, and one assignment of sizes to labels explains every shape. */
  ghost predicate Conforms(ports: seq<Port>, tensors: seq<Tensor>) {
    NamesMatch(ports, tensors) && exists sizes :: AllFit(ports, tensors, sizes)
  }

  /** Some axis labelled `symbol` has this size. */
  ghost predicate Occurs(ports: seq<Port>, tensors: seq<Tensor>, symbol: string, size: nat) {
    exists port, tensor, k: nat :: OccursAt(ports, tensors, symbol, size, port, tensor, k)
  }

  predicate OccursAt(
    ports: seq<Port>, tensors: seq<Tensor>, symbol: string, size: nat, port: Port, tensor: Tensor, k: nat)
  {
    && port in ports && tensor in tensors && tensor.name == port.name
    && k < |port.dimensions| == |tensor.shape| && port.dimensions[k] == Symbolic(symbol) && tensor.shape[k] == size
  }

  ghost predicate Pairs(ports: seq<Port>, tensors: seq<Tensor>, name: string, port: Port, tensor: Tensor) {
    port in ports && tensor in tensors && port.name == name && tensor.name == name
  }

  /** The error names a real defect. */
  ghost predicate Explains(error: Error, ports: seq<Port>, tensors: seq<Tensor>) {
    match error
    case DuplicatePort(name) => exists i, j :: 0 <= i < j < |ports| && ports[i].name == name && ports[j].name == name
    case DuplicateTensor(name) =>
      exists i, j :: 0 <= i < j < |tensors| && tensors[i].name == name && tensors[j].name == name
    case UnexpectedTensor(name) => HasTensor(tensors, name) && !HasPort(ports, name)
    case MissingTensor(name) => HasPort(ports, name) && !HasTensor(tensors, name)
    case DtypeMismatch(name, constraint, dtype) =>
      exists port, tensor :: Pairs(ports, tensors, name, port, tensor) &&
        port.dtype == constraint && tensor.dtype == dtype && !constraint.Accepts(dtype)
    case RankMismatch(name, expected, actual) =>
      exists port, tensor :: Pairs(ports, tensors, name, port, tensor) &&
        |port.dimensions| == expected && |tensor.shape| == actual && expected != actual
    case DimensionMismatch(name, axis, expected, actual) =>
      exists port, tensor :: Pairs(ports, tensors, name, port, tensor) &&
        axis < |port.dimensions| == |tensor.shape| && port.dimensions[axis] == Static(expected)
        && tensor.shape[axis] == actual && expected != actual
    case SymbolicDimensionMismatch(symbol, first, second) =>
      Occurs(ports, tensors, symbol, first) && Occurs(ports, tensors, symbol, second) && first != second
  }

  /** An explained error and conformance exclude each other. */
  lemma ExplainedDoesNotConform(error: Error, ports: seq<Port>, tensors: seq<Tensor>)
    requires Explains(error, ports, tensors) && !error.DuplicatePort?
    ensures !Conforms(ports, tensors)
  {
    forall sizes | AllFit(ports, tensors, sizes) ensures !NamesMatch(ports, tensors) {
      ExplainedDoesNotFit(error, ports, tensors, sizes);
    }
  }

  lemma ExplainedDoesNotFit(error: Error, ports: seq<Port>, tensors: seq<Tensor>, sizes: Sizes)
    requires Explains(error, ports, tensors) && !error.DuplicatePort?
    ensures !(NamesMatch(ports, tensors) && AllFit(ports, tensors, sizes))
  {
    if error.SymbolicDimensionMismatch? && AllFit(ports, tensors, sizes) {
      EveryOccurrenceBinds(ports, tensors, sizes);
    }
  }

  lemma EveryOccurrenceBinds(ports: seq<Port>, tensors: seq<Tensor>, sizes: Sizes)
    requires AllFit(ports, tensors, sizes)
    ensures forall symbol, size :: Occurs(ports, tensors, symbol, size) ==> symbol in sizes && sizes[symbol] == size
  {
    forall symbol, size | Occurs(ports, tensors, symbol, size) ensures symbol in sizes && sizes[symbol] == size {
      OccurrenceBinds(ports, tensors, sizes, symbol, size);
    }
  }

  lemma OccurrenceBinds(ports: seq<Port>, tensors: seq<Tensor>, sizes: Sizes, symbol: string, size: nat)
    requires AllFit(ports, tensors, sizes) && Occurs(ports, tensors, symbol, size)
    ensures symbol in sizes && sizes[symbol] == size
  {
    var port, tensor, k: nat :| OccursAt(ports, tensors, symbol, size, port, tensor, k);
    var i :| 0 <= i < |ports| && ports[i] == port;
    assert PortFits(ports[i], tensors, sizes);
    assert AxisFits(port.dimensions[k], tensor.shape[k], sizes);
  }

  // ---------------------------------------------------------------------------
  // The first error, in the order of the source
  // ---------------------------------------------------------------------------

  datatype Outcome = Valid | Invalid(error: Error)

  /** `validate_schema`, from port `i` on. */
  function SchemaFrom(ports: seq<Port>, i: nat): Outcome
    requires i <= |ports|
    decreases |ports| - i
  {
    if i == |ports| then Valid
    else if exists j :: 0 <= j < i && ports[j].name == ports[i].name then Invalid(DuplicatePort(ports[i].name))
    else SchemaFrom(ports, i + 1)
  }

  function SchemaOutcome(ports: seq<Port>): Outcome {
    SchemaFrom(ports, 0)
  }

  function RepeatsFrom(tensors: seq<Tensor>, i: nat): Outcome
    requires i <= |tensors|
    decreases |tensors| - i
  {
    if i == |tensors| then Valid
    else if exists j :: 0 <= j < i && tensors[j].name == tensors[i].name then Invalid(DuplicateTensor(tensors[i].name))
    else RepeatsFrom(tensors, i + 1)
  }

  function StrangersFrom(ports: seq<Port>, tensors: seq<Tensor>, i: nat): Outcome
    requires i <= |tensors|
    decreases |tensors| - i
  {
    if i == |tensors| then Valid
    else if !HasPort(ports, tensors[i].name) then Invalid(UnexpectedTensor(tensors[i].name))
    else StrangersFrom(ports, tensors, i + 1)
  }

  /** The first tensor of that name. */
  function Find(tensors: seq<Tensor>, name: string): Option<Tensor> {
    if tensors == [] then None
    else if tensors[0].name == name then Some(tensors[0])
    else Find(tensors[1..], name)
  }

  /** The axes of one tensor from `axis` on: the grown bindings, or the first mismatch. */
  function AxesFrom(port: Port, tensor: Tensor, axis: nat, bindings: Sizes): (Outcome, Sizes)
    requires axis <= |port.dimensions| == |tensor.shape|
    decreases |port.dimensions| - axis
  {
    if axis == |port.dimensions| then (Valid, bindings)
    else
      var size := tensor.shape[axis];
      match port.dimensions[axis]
      case Static(expected) =>
        if expected != size then (Invalid(DimensionMismatch(port.name, axis, expected, size)), bindings)
        else AxesFrom(port, tensor, axis + 1, bindings)
      case Symbolic(symbol) =>
        if symbol !in bindings then AxesFrom(port, tensor, axis + 1, bindings[symbol := size])
        else if bindings[symbol] != size then
          (Invalid(SymbolicDimensionMismatch(symbol, bindings[symbol], size)), bindings)
        else AxesFrom(port, tensor, axis + 1, bindings)
      case Dynamic => AxesFrom(port, tensor, axis + 1, bindings)
  }

  function PortsFrom(ports: seq<Port>, tensors: seq<Tensor>, i: nat, bindings: Sizes): Outcome
    requires i <= |ports|
    decreases |ports| - i
  {
    if i == |ports| then Valid
    else
      var port := ports[i];
      match Find(tensors, port.name)
      case None => Invalid(MissingTensor(port.name))
      case Some(tensor) =>
        if !port.dtype.Accepts(tensor.dtype) then Invalid(DtypeMismatch(port.name, port.dtype, tensor.dtype))
        else if |port.dimensions| != |tensor.shape| then
          Invalid(RankMismatch(port.name, |port.dimensions|, |tensor.shape|))
        else
          var (outcome, more) := AxesFrom(port, tensor, 0, bindings);
          if outcome.Invalid? then outcome else PortsFrom(ports, tensors, i + 1, more)
  }

  /** `validate_tensors`. */
  function TensorsOutcome(ports: seq<Port>, tensors: seq<Tensor>): Outcome {
    var repeats := RepeatsFrom(tensors, 0);
    if repeats.Invalid? then repeats
    else
      var strangers := StrangersFrom(ports, tensors, 0);
      if strangers.Invalid? then strangers else PortsFrom(ports, tensors, 0, map[])
  }

  // ---------------------------------------------------------------------------
  // What the first error means
  // ---------------------------------------------------------------------------

  lemma {:induction false} SchemaFromExactly(ports: seq<Port>, i: nat)
    requires i <= |ports| && DistinctPorts(ports[..i])
    ensures SchemaFrom(ports, i).Valid? <==> DistinctPorts(ports)
    ensures SchemaFrom(ports, i).Invalid? ==>
      SchemaFrom(ports, i).error.DuplicatePort? && Explains(SchemaFrom(ports, i).error, ports, [])
    decreases |ports| - i
  {
    if i == |ports| {
      assert ports[..i] == ports;
    } else if !exists j :: 0 <= j < i && ports[j].name == ports[i].name {
      assert ports[..i + 1] == ports[..i] + [ports[i]];
      SchemaFromExactly(ports, i + 1);
    }
  }

  /** `validate_schema` accepts exactly distinct port names. */
  lemma SchemaExactly(ports: seq<Port>)
    ensures SchemaOutcome(ports).Valid? <==> DistinctPorts(ports)
    ensures SchemaOutcome(ports).Invalid? ==>
      SchemaOutcome(ports).error.DuplicatePort? && Explains(SchemaOutcome(ports).error, ports, [])
  {
    SchemaFromExactly(ports, 0);
  }

  lemma {:induction false} RepeatsExactly(ports: seq<Port>, tensors: seq<Tensor>, i: nat)
    requires i <= |tensors| && DistinctTensors(tensors[..i])
    ensures RepeatsFrom(tensors, i).Valid? <==> DistinctTensors(tensors)
    ensures RepeatsFrom(tensors, i).Invalid? ==> Refutes(RepeatsFrom(tensors, i).error, ports, tensors)
    decreases |tensors| - i
  {
    if i == |tensors| {
      assert tensors[..i] == tensors;
    } else if !exists j :: 0 <= j < i && tensors[j].name == tensors[i].name {
      assert tensors[..i + 1] == tensors[..i] + [tensors[i]];
      RepeatsExactly(ports, tensors, i + 1);
    }
  }

  /** An error about the tensors that names a real defect. */
  ghost predicate Refutes(error: Error, ports: seq<Port>, tensors: seq<Tensor>) {
    !error.DuplicatePort? && Explains(error, ports, tensors)
  }

  lemma {:induction false} StrangersExactly(ports: seq<Port>, tensors: seq<Tensor>, i: nat)
    requires i <= |tensors| && forall j :: 0 <= j < i ==> HasPort(ports, tensors[j].name)
    ensures StrangersFrom(ports, tensors, i).Valid? ==> forall tensor :: tensor in tensors ==> HasPort(ports, tensor.name)
    ensures StrangersFrom(ports, tensors, i).Invalid? ==> Refutes(StrangersFrom(ports, tensors, i).error, ports, tensors)
    decreases |tensors| - i
  {
    if i < |tensors| {
      if HasPort(ports, tensors[i].name) { StrangersExactly(ports, tensors, i + 1); } else { assert tensors[i] in tensors; }
    }
  }

  lemma {:induction false} FindFirst(tensors: seq<Tensor>, name: string)
    ensures Find(tensors, name).Some? <==> HasTensor(tensors, name)
    ensures Find(tensors, name).Some? ==> Find(tensors, name).value in tensors && Find(tensors, name).value.name == name
    decreases |tensors|
  {
    if tensors != [] {
      assert tensors == [tensors[0]] + tensors[1..];
      FindFirst(tensors[1..], name);
    }
  }

  /** With distinct names the first tensor of a name is the only one. */
  lemma FindOnly(tensors: seq<Tensor>, tensor: Tensor)
    requires DistinctTensors(tensors) && tensor in tensors
    ensures Find(tensors, tensor.name) == Some(tensor)
  {
    FindFirst(tensors, tensor.name);
    var found := Find(tensors, tensor.name).value;
    var i :| 0 <= i < |tensors| && tensors[i] == tensor;
    var j :| 0 <= j < |tensors| && tensors[j] == found;
  }

  /** Every binding occurs, so every assignment that explains the tensors contains them. */
  ghost predicate Forced(ports: seq<Port>, tensors: seq<Tensor>, bindings: Sizes) {
    forall symbol :: symbol in bindings ==> Occurs(ports, tensors, symbol, bindings[symbol])
  }

  predicate AxesFit(rules: seq<Dimension>, shape: seq<nat>, n: nat, sizes: Sizes)
    requires n <= |rules| == |shape|
  {
    forall k :: 0 <= k < n ==> AxisFits(rules[k], shape[k], sizes)
  }

  /** Every binding made later leaves the earlier ones alone. */
  predicate Extends(sizes: Sizes, more: Sizes) {
    forall symbol :: symbol in sizes ==> symbol in more && more[symbol] == sizes[symbol]
  }

  lemma {:induction false} AxesExactly(
    ports: seq<Port>, tensors: seq<Tensor>, port: Port, tensor: Tensor, axis: nat, bindings: Sizes)
    requires port in ports && tensor in tensors && tensor.name == port.name
    requires axis <= |port.dimensions| == |tensor.shape| && Forced(ports, tensors, bindings)
    requires AxesFit(port.dimensions, tensor.shape, axis, bindings)
    ensures var (outcome, more) := AxesFrom(port, tensor, axis, bindings);
      && (outcome.Invalid? ==> Refutes(outcome.error, ports, tensors))
      && (outcome.Valid? ==> Fits(port.dimensions, tensor.shape, more))
      && (outcome.Valid? ==> Extends(bindings, more) && Forced(ports, tensors, more))
    decreases |port.dimensions| - axis
  {
    if axis < |port.dimensions| {
      var size := tensor.shape[axis];
      match port.dimensions[axis]
      case Static(expected) =>
        if expected == size {
          AxesExactly(ports, tensors, port, tensor, axis + 1, bindings);
        } else {
          assert Pairs(ports, tensors, port.name, port, tensor);
        }
      case Symbolic(symbol) =>
        assert OccursAt(ports, tensors, symbol, size, port, tensor, axis);
        if symbol !in bindings {
          AxesExactly(ports, tensors, port, tensor, axis + 1, bindings[symbol := size]);
        } else if bindings[symbol] == size {
          AxesExactly(ports, tensors, port, tensor, axis + 1, bindings);
        }
      case Dynamic => AxesExactly(ports, tensors, port, tensor, axis + 1, bindings);
    }
  }

  lemma MoreSizesFit(port: Port, tensors: seq<Tensor>, sizes: Sizes, more: Sizes)
    requires PortFits(port, tensors, sizes) && Extends(sizes, more)
    ensures PortFits(port, tensors, more)
  {
    forall tensor | tensor in tensors && tensor.name == port.name ensures Fits(port.dimensions, tensor.shape, more) {
      forall k | 0 <= k < |port.dimensions| ensures AxisFits(port.dimensions[k], tensor.shape[k], more) {
        assert AxisFits(port.dimensions[k], tensor.shape[k], sizes);
      }
    }
  }

  /** The ports before `i` are satisfied under `bindings`. */
  predicate Satisfied(ports: seq<Port>, tensors: seq<Tensor>, i: nat, bindings: Sizes)
    requires i <= |ports|
  {
    forall j :: 0 <= j < i ==> HasTensor(tensors, ports[j].name) && PortFits(ports[j], tensors, bindings)
  }

  lemma {:induction false} PortsExactly(ports: seq<Port>, tensors: seq<Tensor>, i: nat, bindings: Sizes)
    requires i <= |ports| && DistinctTensors(tensors) && Forced(ports, tensors, bindings)
    requires Satisfied(ports, tensors, i, bindings)
    ensures var outcome := PortsFrom(ports, tensors, i, bindings);
      && (outcome.Invalid? ==> Refutes(outcome.error, ports, tensors))
      && (outcome.Valid? ==> exists sizes :: Satisfied(ports, tensors, |ports|, sizes))
    decreases |ports| - i
  {
    hide Fits, Forced, Explains;
    if i < |ports| {
      var port := ports[i];
      FindFirst(tensors, port.name);
      if Find(tensors, port.name).None? {
        MissingExplained(ports, tensors, port);
      } else {
        var tensor := Find(tensors, port.name).value;
        PairExplained(ports, tensors, port, tensor);
        if port.dtype.Accepts(tensor.dtype) && |port.dimensions| == |tensor.shape| {
          AxesExactly(ports, tensors, port, tensor, 0, bindings);
          var (outcome, more) := AxesFrom(port, tensor, 0, bindings);
          if outcome.Valid? {
            OnePortMore(ports, tensors, i, tensor, bindings, more);
            PortsExactly(ports, tensors, i + 1, more);
          }
        }
      }
    }
  }

  lemma OnePortMore(ports: seq<Port>, tensors: seq<Tensor>, i: nat, tensor: Tensor, bindings: Sizes, more: Sizes)
    requires i < |ports| && DistinctTensors(tensors) && Satisfied(ports, tensors, i, bindings) && Extends(bindings, more)
    requires Find(tensors, ports[i].name) == Some(tensor) && ports[i].dtype.Accepts(tensor.dtype)
    requires Fits(ports[i].dimensions, tensor.shape, more)
    ensures Satisfied(ports, tensors, i + 1, more)
  {
    hide Fits;
    FindFirst(tensors, ports[i].name);
    forall t | t in tensors && t.name == ports[i].name ensures t == tensor { FindOnly(tensors, t); }
    forall j | 0 <= j < i ensures PortFits(ports[j], tensors, more) { MoreSizesFit(ports[j], tensors, bindings, more); }
  }

  lemma MissingExplained(ports: seq<Port>, tensors: seq<Tensor>, port: Port)
    requires port in ports && !HasTensor(tensors, port.name)
    ensures Explains(MissingTensor(port.name), ports, tensors)
  {
  }

  lemma PairExplained(ports: seq<Port>, tensors: seq<Tensor>, port: Port, tensor: Tensor)
    requires port in ports && tensor in tensors && tensor.name == port.name
    ensures !port.dtype.Accepts(tensor.dtype) ==>
      Explains(DtypeMismatch(port.name, port.dtype, tensor.dtype), ports, tensors)
    ensures |port.dimensions| != |tensor.shape| ==>
      Explains(RankMismatch(port.name, |port.dimensions|, |tensor.shape|), ports, tensors)
  {
    assert Pairs(ports, tensors, port.name, port, tensor);
  }

  /** `validate_tensors` accepts exactly what conforms, and explains every rejection by a real defect. */
  lemma TensorsExactly(ports: seq<Port>, tensors: seq<Tensor>)
    ensures TensorsOutcome(ports, tensors).Valid? <==> Conforms(ports, tensors)
    ensures TensorsOutcome(ports, tensors).Invalid? ==> Refutes(TensorsOutcome(ports, tensors).error, ports, tensors)
  {
    hide Explains, PortFits;
    RepeatsExactly(ports, tensors, 0);
    StrangersExactly(ports, tensors, 0);
    NothingForced(ports, tensors);
    var outcome := TensorsOutcome(ports, tensors);
    if RepeatsFrom(tensors, 0).Valid? { PortsExactly(ports, tensors, 0, map[]); }
    if outcome.Valid? {
      var sizes :| Satisfied(ports, tensors, |ports|, sizes);
      assert AllFit(ports, tensors, sizes);
    } else {
      ExplainedDoesNotConform(outcome.error, ports, tensors);
    }
  }

  lemma NothingForced(ports: seq<Port>, tensors: seq<Tensor>)
    ensures Forced(ports, tensors, map[]) && Satisfied(ports, tensors, 0, map[])
  {
  }

  // ---------------------------------------------------------------------------
  // The checks as the source runs them
  // ---------------------------------------------------------------------------

  method ValidateSchema(ports: seq<Port>) returns (r: Outcome)
    ensures r == SchemaOutcome(ports) && (r.Valid? <==> DistinctPorts(ports))
  {
    SchemaExactly(ports);
    var names: set<string> := {};
    for i := 0 to |ports|
      invariant names == set j | 0 <= j < i :: ports[j].name
      invariant SchemaOutcome(ports) == SchemaFrom(ports, i)
    {
      if ports[i].name in names { return Invalid(DuplicatePort(ports[i].name)); }
      names := names + {ports[i].name};
    }
    r := Valid;
  }

  /** `actual` finds the tensor of every name that occurs. */
  predicate ByName(actual: map<string, Tensor>, tensors: seq<Tensor>) {
    && (forall tensor :: tensor in tensors ==> tensor.name in actual)
    && (forall name :: name in actual ==> actual[name] in tensors && actual[name].name == name)
  }

  method CollectTensors(tensors: seq<Tensor>) returns (actual: map<string, Tensor>, r: Outcome)
    ensures r == RepeatsFrom(tensors, 0)
    ensures r.Valid? ==> ByName(actual, tensors) && DistinctTensors(tensors)
  {
    hide DistinctTensors, ByName;
    actual := map[];
    NothingCollected(tensors);
    for i := 0 to |tensors|
      invariant ByName(actual, tensors[..i]) && DistinctTensors(tensors[..i])
      invariant RepeatsFrom(tensors, 0) == RepeatsFrom(tensors, i)
    {
      CollectedNext(actual, tensors, i);
      var name := tensors[i].name;
      if name in actual { return actual, Invalid(DuplicateTensor(name)); }
      actual := actual[name := tensors[i]];
    }
    assert tensors[..|tensors|] == tensors;
    r := Valid;
  }

  lemma NothingCollected(tensors: seq<Tensor>)
    ensures ByName(map[], tensors[..0]) && DistinctTensors(tensors[..0])
  {
  }

  lemma CollectedNext(actual: map<string, Tensor>, tensors: seq<Tensor>, i: nat)
    requires i < |tensors| && ByName(actual, tensors[..i]) && DistinctTensors(tensors[..i])
    ensures tensors[i].name in actual <==> exists j :: 0 <= j < i && tensors[j].name == tensors[i].name
    ensures tensors[i].name !in actual ==>
      ByName(actual[tensors[i].name := tensors[i]], tensors[..i + 1]) && DistinctTensors(tensors[..i + 1])
  {
    assert forall j :: 0 <= j < i ==> tensors[j] in tensors[..i];
    assert tensors[..i + 1] == tensors[..i] + [tensors[i]];
    if tensors[i].name in actual {
      var j :| 0 <= j < i && tensors[..i][j] == actual[tensors[i].name];
      assert tensors[j].name == tensors[i].name;
    }
  }

  method CheckStrangers(ports: seq<Port>, tensors: seq<Tensor>) returns (r: Outcome)
    ensures r == StrangersFrom(ports, tensors, 0)
  {
    for i := 0 to |tensors|
      invariant StrangersFrom(ports, tensors, 0) == StrangersFrom(ports, tensors, i)
    {
      if !HasPort(ports, tensors[i].name) { return Invalid(UnexpectedTensor(tensors[i].name)); }
    }
    r := Valid;
  }

  method CheckAxes(port: Port, tensor: Tensor, before: Sizes) returns (bindings: Sizes, r: Outcome)
    requires |port.dimensions| == |tensor.shape|
    ensures r == AxesFrom(port, tensor, 0, before).0
    ensures r.Valid? ==> bindings == AxesFrom(port, tensor, 0, before).1
  {
    bindings := before;
    for axis := 0 to |port.dimensions|
      invariant AxesFrom(port, tensor, 0, before) == AxesFrom(port, tensor, axis, bindings)
    {
      var size := tensor.shape[axis];
      match port.dimensions[axis]
      case Static(expected) =>
        if expected != size { return bindings, Invalid(DimensionMismatch(port.name, axis, expected, size)); }
      case Symbolic(symbol) =>
        if symbol in bindings {
          if bindings[symbol] != size {
            return bindings, Invalid(SymbolicDimensionMismatch(symbol, bindings[symbol], size));
          }
        } else {
          bindings := bindings[symbol := size];
        }
      case Dynamic =>
    }
    r := Valid;
  }

  method ValidateTensors(ports: seq<Port>, tensors: seq<Tensor>) returns (r: Outcome)
    ensures r == TensorsOutcome(ports, tensors)
    ensures r.Valid? <==> Conforms(ports, tensors)
    ensures r.Invalid? ==> Refutes(r.error, ports, tensors)
  {
    hide Conforms, Refutes, AxesFrom;
    TensorsExactly(ports, tensors);
    var actual;
    actual, r := CollectTensors(tensors);
    if r.Invalid? { return; }
    r := CheckStrangers(ports, tensors);
    if r.Invalid? { return; }
    var bindings: Sizes := map[];
    for i := 0 to |ports|
      invariant TensorsOutcome(ports, tensors) == PortsFrom(ports, tensors, i, bindings)
    {
      var port := ports[i];
      FoundByName(actual, tensors, port.name);
      if port.name !in actual { return Invalid(MissingTensor(port.name)); }
      var tensor := actual[port.name];
      if !port.dtype.Accepts(tensor.dtype) { return Invalid(DtypeMismatch(port.name, port.dtype, tensor.dtype)); }
      if |port.dimensions| != |tensor.shape| {
        return Invalid(RankMismatch(port.name, |port.dimensions|, |tensor.shape|));
      }
      bindings, r := CheckAxes(port, tensor, bindings);
      if r.Invalid? { return; }
    }
    r := Valid;
  }

  lemma FoundByName(actual: map<string, Tensor>, tensors: seq<Tensor>, name: string)
    requires ByName(actual, tensors) && DistinctTensors(tensors)
    ensures Find(tensors, name) == if name in actual then Some(actual[name]) else None
  {
    FindFirst(tensors, name);
    if name in actual { FindOnly(tensors, actual[name]); }
  }
}
