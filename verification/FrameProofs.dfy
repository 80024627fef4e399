/** Round trip, prefix-freeness and the stream header of the tensor frame. */
module FrameProofs {
  import opened Basics
  import opened Schema
  import opened TensorOrder
  import opened Sorting
  import opened HeaderOffsets
  import opened FrameCodec

  // ---------------------------------------------------------------------------
  // Opening a frame
  // ---------------------------------------------------------------------------

  /** The pieces of a frame. */
  lemma FramePieces(envelope: Bytes, metadata: Bytes, tensors: Bytes)
    ensures var (f, a) := (Frame(envelope, metadata, tensors), PREFIX_LEN + |envelope|);
            && |f| == a + |metadata| + |tensors|
            && f[..8] == MAGIC && f[8..PREFIX_LEN] == LE(|envelope|, 4) && f[PREFIX_LEN..a] == envelope
            && f[a..a + |metadata|] == metadata && f[a + |metadata|..] == tensors
  {
    var len := LE(|envelope|, 4);
    Regroup1(MAGIC, len, envelope, metadata, tensors);
    Regroup2(MAGIC, len, envelope, metadata, tensors);
    Regroup3(MAGIC, len, envelope, metadata, tensors);
    CutMiddle(MAGIC + len + envelope, metadata, tensors);
  }

  lemma Regroup1(a: Bytes, b: Bytes, c: Bytes, d: Bytes, e: Bytes)
    ensures (a + b + c + d + e)[..|a|] == a
  {
    assert a + b + c + d + e == a + (b + c + d + e);
  }

  lemma Regroup2(a: Bytes, b: Bytes, c: Bytes, d: Bytes, e: Bytes)
    ensures (a + b + c + d + e)[|a|..|a| + |b|] == b
  {
    assert a + b + c + d + e == a + b + (c + d + e);
    CutMiddle(a, b, c + d + e);
  }

  lemma Regroup3(a: Bytes, b: Bytes, c: Bytes, d: Bytes, e: Bytes)
    ensures (a + b + c + d + e)[|a| + |b|..|a| + |b| + |c|] == c
  {
    assert a + b + c + d + e == (a + b) + c + (d + e);
    CutMiddle(a + b, c, d + e);
  }

  lemma CutMiddle(a: Bytes, b: Bytes, c: Bytes)
    ensures (a + b + c)[|a|..|a| + |b|] == b && (a + b + c)[|a| + |b|..] == c
  {
  }

  lemma FrameOpens(e: Envelope, metadata: Bytes, tensors: Bytes)
    requires DecodeEnvelope(EncodeEnvelope(e)) == Some(e) && |EncodeEnvelope(e)| < U32_LIMIT
    ensures Open(Frame(EncodeEnvelope(e), metadata, tensors)) == Ok(Opened(PREFIX_LEN + |EncodeEnvelope(e)|, e))
  {
    FramePieces(EncodeEnvelope(e), metadata, tensors);
    WidthLimits();
    LengthRoundTrip(|EncodeEnvelope(e)|, 4);
  }

  predicate Prefix(a: Bytes, b: Bytes) {
    |a| <= |b| && b[..|a|] == a
  }

  /** What opens, opens the same way in anything longer; and in anything shorter that still holds the envelope. */
  lemma OpensAlike(a: Bytes, b: Bytes)
    requires Prefix(a, b)
    ensures Open(a).Ok? ==> Open(b) == Open(a)
    ensures Open(b).Ok? && Open(b).value.envelopeEnd <= |a| ==> Open(a) == Open(b)
  {
    if |a| >= PREFIX_LEN {
      assert a[..8] == b[..8] && a[8..PREFIX_LEN] == b[8..PREFIX_LEN];
      var n := PREFIX_LEN + FromLE(a[8..PREFIX_LEN]);
      if n <= |a| { assert a[PREFIX_LEN..n] == b[PREFIX_LEN..n]; }
    }
  }

  /** An accepted frame is as long as its envelope says. */
  lemma DecodedLength(descriptor: Descriptor, side: Side, frame: Bytes)
    requires Decode(descriptor, side, frame).Ok?
    ensures Open(frame).Ok?
    ensures var o := Open(frame).value; |frame| == o.envelopeEnd + o.envelope.metadataLen + o.envelope.tensorLen
  {
  }

  /** No accepted frame is a proper beginning of another: neither truncation nor extension is accepted. */
  lemma NoPrefixNoExtension(descriptor: Descriptor, side: Side, descriptor': Descriptor, side': Side, a: Bytes, b: Bytes)
    requires Decode(descriptor, side, a).Ok? && Decode(descriptor', side', b).Ok? && Prefix(a, b)
    ensures a == b
  {
    DecodedLength(descriptor, side, a);
    DecodedLength(descriptor', side', b);
    OpensAlike(a, b);
  }

  // ---------------------------------------------------------------------------
  // Round trip
  // ---------------------------------------------------------------------------

  /** Conformance looks at names, dtypes and shapes only, in any order. */
  ghost predicate SameShapes(a: seq<Tensor>, b: seq<Tensor>) {
    && |a| == |b|
    && (forall t :: t in a ==> HasShape(b, t))
    && (forall t :: t in b ==> HasShape(a, t))
  }

  predicate HasShape(tensors: seq<Tensor>, t: Tensor) {
    exists u :: u in tensors && u.name == t.name && u.dtype == t.dtype && u.shape == t.shape
  }

  lemma DistinctAlike(a: seq<Tensor>, b: seq<Tensor>)
    requires DistinctTensors(a) && SameShapes(a, b)
    ensures DistinctTensors(b)
  {
    hide HasShape;
    SameNames(a, b);
    DistinctByCount(a);
    DistinctByCount(b);
  }

  lemma TensorAlike(a: seq<Tensor>, b: seq<Tensor>, name: string)
    requires HasTensor(a, name) && forall t :: t in a ==> HasShape(b, t)
    ensures HasTensor(b, name)
  {
    var t :| t in a && t.name == name;
    assert HasShape(b, t);
  }

  lemma NamesMatchAlike(ports: seq<Port>, a: seq<Tensor>, b: seq<Tensor>)
    requires NamesMatch(ports, a) && SameShapes(a, b)
    ensures NamesMatch(ports, b)
  {
    hide HasTensor, HasPort, DistinctTensors;
    DistinctAlike(a, b);
    forall t | t in b ensures HasPort(ports, t.name) {
      assert HasShape(a, t);
      var u :| u in a && u.name == t.name;
    }
    forall p | p in ports ensures HasTensor(b, p.name) { TensorAlike(a, b, p.name); }
  }

  lemma PortFitsAlike(port: Port, a: seq<Tensor>, b: seq<Tensor>, sizes: Sizes)
    requires PortFits(port, a, sizes) && forall t :: t in b ==> HasShape(a, t)
    ensures PortFits(port, b, sizes)
  {
    hide Fits;
    forall t | t in b && t.name == port.name
      ensures port.dtype.Accepts(t.dtype) && Fits(port.dimensions, t.shape, sizes)
    {
      assert HasShape(a, t);
    }
  }

  lemma ConformsAlike(ports: seq<Port>, a: seq<Tensor>, b: seq<Tensor>)
    requires Conforms(ports, a) && SameShapes(a, b)
    ensures Conforms(ports, b)
  {
    hide PortFits, NamesMatch, HasShape;
    NamesMatchAlike(ports, a, b);
    var sizes :| AllFit(ports, a, sizes);
    forall i | 0 <= i < |ports| ensures PortFits(ports[i], b, sizes) { PortFitsAlike(ports[i], a, b, sizes); }
    assert AllFit(ports, b, sizes);
  }

  lemma SameNames(a: seq<Tensor>, b: seq<Tensor>)
    requires SameShapes(a, b)
    ensures NameSet(a) == NameSet(b)
  {
    NamesIn(a, b);
    NamesIn(b, a);
  }

  lemma NamesIn(a: seq<Tensor>, b: seq<Tensor>)
    requires forall t :: t in a ==> HasShape(b, t)
    ensures NameSet(a) <= NameSet(b)
  {
    forall name | name in NameSet(a) ensures name in NameSet(b) {
      var t :| t in a && t.name == name;
      assert HasShape(b, t);
    }
  }

  lemma ConformsPermuted(ports: seq<Port>, a: seq<Tensor>, b: seq<Tensor>)
    requires Conforms(ports, a) && SameTensors(a, b)
    ensures Conforms(ports, b)
  {
    forall t | t in a ensures HasShape(b, t) { assert t in b; }
    forall t | t in b ensures HasShape(a, t) { assert t in a; }
    ConformsAlike(ports, a, b);
  }

  lemma CheckedIsConforming(ports: seq<Port>, tensors: seq<Tensor>)
    ensures CheckSchema(ports, tensors).Valid? <==> DistinctPorts(ports) && Conforms(ports, tensors)
  {
    SchemaExactly(ports);
    TensorsExactly(ports, tensors);
  }

  /** The envelope that an encoding puts in front. */
  function EnvelopeOf(descriptor: Descriptor, side: Side, tensors: seq<Tensor>, metadata: Metadata): Envelope {
    EnvelopeFor(descriptor, side, |EncodeMetadata(metadata)|, |Serialize(tensors)|)
  }

  /** What an accepted encoding says of its arguments. */
  lemma EncodedArguments(descriptor: Descriptor, side: Side, tensors: seq<Tensor>, metadata: Metadata)
    requires Encode(descriptor, side, tensors, metadata).Ok?
    ensures var ports := PortsFor(descriptor, side); DistinctPorts(ports) && Conforms(ports, tensors)
    ensures DistinctTensors(tensors) && forall t :: t in tensors ==> SizedRight(t)
    ensures var e := EncodeEnvelope(EnvelopeOf(descriptor, side, tensors, metadata));
            && |e| < U32_LIMIT
            && Encode(descriptor, side, tensors, metadata).value == Frame(e, EncodeMetadata(metadata), Serialize(tensors))
  {
    hide CheckSchema, Frame, Serialize, SizedRight;
    CheckedIsConforming(PortsFor(descriptor, side), tensors);
  }

  /** An encoded frame, taken apart. */
  lemma EncodedFrame(descriptor: Descriptor, side: Side, tensors: seq<Tensor>, metadata: Metadata)
    requires Encode(descriptor, side, tensors, metadata).Ok?
    requires PostcardReads(EnvelopeOf(descriptor, side, tensors, metadata), metadata)
    ensures var f := Encode(descriptor, side, tensors, metadata).value;
            && Open(f).Ok?
            && var o := Open(f).value;
            && o.envelope == EnvelopeOf(descriptor, side, tensors, metadata)
            && |f| == o.envelopeEnd + o.envelope.metadataLen + o.envelope.tensorLen
            && f[o.envelopeEnd..o.envelopeEnd + o.envelope.metadataLen] == EncodeMetadata(metadata)
            && f[o.envelopeEnd + o.envelope.metadataLen..] == Serialize(tensors)
  {
    hide Conforms, Serialize, Encode, Frame, Open;
    var e := EnvelopeOf(descriptor, side, tensors, metadata);
    EncodedArguments(descriptor, side, tensors, metadata);
    FrameOpens(e, EncodeMetadata(metadata), Serialize(tensors));
    FramePieces(EncodeEnvelope(e), EncodeMetadata(metadata), Serialize(tensors));
  }

  lemma {:induction false} ConvertBack(stored: seq<StoredTensor>, tensors: seq<Tensor>)
    requires forall s :: s in stored ==> Stores(s, tensors)
    ensures Convert(stored).Some? && |Convert(stored).value| == |stored|
    ensures forall t :: t in Convert(stored).value <==> AsStored(t) in stored
    decreases |stored|
  {
    if stored != [] {
      var front, last := stored[..|stored| - 1], stored[|stored| - 1];
      assert stored == front + [last];
      ConvertBack(front, tensors);
      assert Stores(last, tensors);
    }
  }

  lemma StoredIsSame(stored: seq<StoredTensor>, tensors: seq<Tensor>)
    requires SameStored(stored, tensors)
    ensures Convert(stored).Some? && SameTensors(Convert(stored).value, tensors)
  {
    ConvertBack(stored, tensors);
    forall t | AsStored(t) in stored ensures t in tensors { assert Stores(AsStored(t), tensors); }
  }

  /** The two contracts have one identity: id, version and digest. */
  predicate SameContract(a: Descriptor, b: Descriptor) {
    a.id == b.id && a.version == b.version && DescriptorHash(a) == DescriptorHash(b)
  }

  /** What a decoder says to a foreign frame: the first difference. */
  function ForeignFrame(written: Descriptor, writtenSide: Side, expected: Descriptor, side: Side): Option<CodecError> {
    if written.id != expected.id then Some(ContractIdMismatch)
    else if written.version != expected.version then Some(ContractVersionMismatch)
    else if DescriptorHash(written) != DescriptorHash(expected) then Some(ContractHashMismatch)
    else if writtenSide != side then Some(ContractSideMismatch)
    else None
  }

  /** The envelope names this contract and this side, in the one version and the encodings there are. */
  predicate Carries(e: Envelope, descriptor: Descriptor, side: Side) {
    && e.contractId == descriptor.id && e.contractVersion == descriptor.version
    && e.contractHash == DescriptorHash(descriptor) && e.side == side
    && e.version == 1 && e.tensorEncoding == 1 && e.metadataEncoding == 2
  }

  /**
   * A whole frame of this contract and side: "BHSTEN01", four bytes of length, an envelope of that length which names
   * them, and metadata and tensors of the lengths it states, which read and conform to the ports.
   */
  ghost predicate WholeFrame(descriptor: Descriptor, side: Side, frame: Bytes) {
    && |frame| >= 12 && frame[..8] == [66, 72, 83, 84, 69, 78, 48, 49]
    && 12 + FromLE(frame[8..12]) <= |frame|
    && var a := 12 + FromLE(frame[8..12]);
    && DecodeEnvelope(frame[12..a]).Some?
    && var e := DecodeEnvelope(frame[12..a]).value;
    && Carries(e, descriptor, side)
    && |frame| == a + e.metadataLen + e.tensorLen
    && DecodeMetadata(frame[a..a + e.metadataLen]).Some?
    && Deserialize(frame[a + e.metadataLen..]).Some?
    && var stored := Deserialize(frame[a + e.metadataLen..]).value;
    && (forall t :: t in stored ==> t.dtype.Known?)
    && DistinctPorts(PortsFor(descriptor, side)) && Conforms(PortsFor(descriptor, side), KnownOnes(stored))
  }

  /** The tensors of known types among those that the library hands back. */
  function KnownOnes(stored: seq<StoredTensor>): seq<Tensor> {
    if stored == [] then []
    else
      var last := stored[|stored| - 1];
      KnownOnes(stored[..|stored| - 1])
        + if last.dtype.Known? then [Tensor(last.name, last.dtype.dtype, last.shape, last.data)] else []
  }

  lemma {:induction false} ConvertsKnown(stored: seq<StoredTensor>)
    ensures Convert(stored).Some? <==> forall t :: t in stored ==> t.dtype.Known?
    ensures Convert(stored).Some? ==> Convert(stored).value == KnownOnes(stored)
    decreases |stored|
  {
    if stored != [] {
      ConvertsKnown(stored[..|stored| - 1]);
      assert stored == stored[..|stored| - 1] + [stored[|stored| - 1]];
    }
  }

  /** Over all bytes, whoever wrote them: exactly the whole frames of a contract and side are accepted for them. */
  lemma AcceptsWholeFrames(descriptor: Descriptor, side: Side, frame: Bytes)
    requires |frame| < U64_LIMIT
    ensures Decode(descriptor, side, frame).Ok? <==> WholeFrame(descriptor, side, frame)
  {
    hide FromLE, Conforms, DistinctPorts, CheckSchema, Convert, KnownOnes, ByPort, SchemaOutcome, TensorsOutcome;
    if Open(frame).Ok? {
      var o := Open(frame).value;
      if Ends(o).Some? && Ends(o).value.1 == |frame| {
        var rest := frame[o.envelopeEnd + o.envelope.metadataLen..];
        assert rest == frame[Ends(o).value.0..Ends(o).value.1];
        if Deserialize(rest).Some? {
          ConvertsKnown(Deserialize(rest).value);
          CheckedIsConforming(PortsFor(descriptor, side), KnownOnes(Deserialize(rest).value));
        }
      }
    }
  }

  /** Every frame that is accepted carries the contract and the side that it was checked against. */
  lemma AcceptedFrameCarriesContract(descriptor: Descriptor, side: Side, frame: Bytes)
    requires Decode(descriptor, side, frame).Ok?
    ensures var r := Decode(descriptor, side, frame).value;
      && Open(frame).Ok? && Open(frame).value.envelope == r.envelope && Carries(r.envelope, descriptor, side)
  {
    hide Open, CheckSchema, Convert, ByPort, Ends;
  }

  /** What a header of this contract and side says of a frame of `n` bytes: everything up to the tensor data. */
  ghost predicate WholeHeader(descriptor: Descriptor, side: Side, header: Bytes, n: nat) {
    && |header| >= 12 && header[..8] == [66, 72, 83, 84, 69, 78, 48, 49]
    && 12 + FromLE(header[8..12]) <= |header|
    && var a := 12 + FromLE(header[8..12]);
    && DecodeEnvelope(header[12..a]).Some?
    && var e := DecodeEnvelope(header[12..a]).value;
    && Carries(e, descriptor, side)
    && var start := a + e.metadataLen;
    && start + 8 <= |header| && |header| == start + 8 + FromLE(header[start..start + 8])
    && n == start + e.tensorLen
    && ParseJson(header[start + 8..]).Some?
    && TensorEntries(ParseJson(header[start + 8..]).value).Some?
    && var infos := SortByBegin(TensorEntries(ParseJson(header[start + 8..]).value).value);
    && Contiguous(infos) && e.tensorLen == |header| - start + DataLen(infos)
    && Shells(infos).Some?
    && DistinctPorts(PortsFor(descriptor, side)) && Conforms(PortsFor(descriptor, side), Shells(infos).value)
  }

  /** Over all bytes: a header is accepted, for a frame of `n` bytes, exactly when it is such a header. */
  lemma AcceptsWholeHeaders(descriptor: Descriptor, side: Side, header: Bytes, n: nat)
    requires |header| < U64_LIMIT && n < U64_LIMIT
    ensures ValidateStreamHeader(descriptor, side, header) == Ok(n) <==> WholeHeader(descriptor, side, header, n)
  {
    hide FromLE, Conforms, DistinctPorts, CheckSchema, TensorEntries, Shells, SortByBegin, Contiguous, DataLen;
    if Open(header).Ok? {
      var o := Open(header).value;
      var start := o.envelopeEnd + o.envelope.metadataLen;
      if start + 8 <= |header| && |header| == start + 8 + FromLE(header[start..start + 8]) {
        assert HeaderEnd(o, header) == Ok((start + 8, |header|));
        assert header[start + 8..] == header[start + 8..|header|];
        var entries := ParseJson(header[start + 8..]);
        if entries.Some? && TensorEntries(entries.value).Some? {
          var infos := SortByBegin(TensorEntries(entries.value).value);
          if Shells(infos).Some? { CheckedIsConforming(PortsFor(descriptor, side), Shells(infos).value); }
        }
      }
    }
  }

  /** Every header that validates carries the contract and the side that it was checked against. */
  lemma AcceptedHeaderCarriesContract(descriptor: Descriptor, side: Side, header: Bytes)
    requires ValidateStreamHeader(descriptor, side, header).Ok?
    ensures Open(header).Ok? && Carries(Open(header).value.envelope, descriptor, side)
  {
    hide Open, HeaderEnd, CheckEntries, TensorEntries;
  }

  /**
   * Which decoders accept an encoded bundle: those for the same contract and side whose ports the tensors conform to,
   * provided that the foreign codecs read back this bundle and that the frame fits in memory. They return the same
   * metadata and, at every port, the tensor with the port's name; any other names the first difference.
   */
  lemma DecodesExactly(
    descriptor: Descriptor, side: Side, tensors: seq<Tensor>, metadata: Metadata, expected: Descriptor, expectedSide: Side)
    requires Encode(descriptor, side, tensors, metadata).Ok?
    requires PostcardReads(EnvelopeOf(descriptor, side, tensors, metadata), metadata) && BodyReads(tensors)
    requires |Encode(descriptor, side, tensors, metadata).value| < U64_LIMIT
    ensures var r := Decode(expected, expectedSide, Encode(descriptor, side, tensors, metadata).value);
            var ports := PortsFor(expected, expectedSide);
            && (r.Ok? <==>
              && SameContract(descriptor, expected) && side == expectedSide
              && DistinctPorts(ports) && Conforms(ports, tensors))
            && (r.Ok? ==> r.value.metadata == metadata && InPortOrder(ports, tensors, r.value.tensors))
            && (ForeignFrame(descriptor, side, expected, expectedSide).Some? ==>
              r == Err(ForeignFrame(descriptor, side, expected, expectedSide).value))
  {
    hide Conforms, Serialize, Open, Encode, Decode, InPortOrder, CheckSchema, Convert, SameStored, DistinctPorts,
      CheckEnvelope;
    var f := Encode(descriptor, side, tensors, metadata).value;
    EncodedFrame(descriptor, side, tensors, metadata);
    var o, ports := Open(f).value, PortsFor(expected, expectedSide);
    var stored := Deserialize(Serialize(tensors)).value;
    StoredIsSame(stored, tensors);
    var back := Convert(stored).value;
    CheckedIsConforming(ports, back);
    if Conforms(ports, tensors) { ConformsPermuted(ports, tensors, back); }
    if Conforms(ports, back) { ConformsPermuted(ports, back, tensors); }
    EnvelopeChecked(descriptor, side, tensors, metadata, expected, expectedSide);
    DecodesTo(expected, expectedSide, f, o, metadata, stored, back);
    if DistinctPorts(ports) && Conforms(ports, back) { BackInPortOrder(ports, tensors, back); }
  }

  /** An own envelope against any contract and side. */
  lemma EnvelopeChecked(
    descriptor: Descriptor, side: Side, tensors: seq<Tensor>, metadata: Metadata, expected: Descriptor, expectedSide: Side)
    ensures CheckEnvelope(EnvelopeOf(descriptor, side, tensors, metadata), expected, expectedSide)
      == ForeignFrame(descriptor, side, expected, expectedSide)
    ensures ForeignFrame(descriptor, side, expected, expectedSide).None?
      <==> SameContract(descriptor, expected) && side == expectedSide
  {
    hide Serialize;
  }

  /** The bundle comes back: decoded for the contract and side it was encoded for. */
  lemma FrameRoundTrip(descriptor: Descriptor, side: Side, tensors: seq<Tensor>, metadata: Metadata)
    requires Encode(descriptor, side, tensors, metadata).Ok?
    requires PostcardReads(EnvelopeOf(descriptor, side, tensors, metadata), metadata) && BodyReads(tensors)
    requires |Encode(descriptor, side, tensors, metadata).value| < U64_LIMIT
    ensures var r := Decode(descriptor, side, Encode(descriptor, side, tensors, metadata).value);
            r.Ok? && r.value.metadata == metadata && InPortOrder(PortsFor(descriptor, side), tensors, r.value.tensors)
  {
    hide Conforms, Encode, Decode, InPortOrder, DistinctPorts;
    DecodesExactly(descriptor, side, tensors, metadata, descriptor, side);
    EncodedArguments(descriptor, side, tensors, metadata);
  }

  /** The decoder, step by step, when the frame is whole and its codecs read it. */
  lemma DecodesTo(
    descriptor: Descriptor, side: Side, f: Bytes, o: Opened, metadata: Metadata, stored: seq<StoredTensor>, back: seq<Tensor>)
    requires Open(f) == Ok(o)
    requires |f| == o.envelopeEnd + o.envelope.metadataLen + o.envelope.tensorLen < U64_LIMIT
    requires DecodeMetadata(f[o.envelopeEnd..o.envelopeEnd + o.envelope.metadataLen]) == Some(metadata)
    requires Deserialize(f[o.envelopeEnd + o.envelope.metadataLen..]) == Some(stored) && Convert(stored) == Some(back)
    ensures var checked, schema := CheckEnvelope(o.envelope, descriptor, side), CheckSchema(PortsFor(descriptor, side), back);
      Decode(descriptor, side, f) ==
        if checked.Some? then Err(checked.value)
        else if schema.Invalid? then Err(SchemaError(schema.error))
        else Ok(Bundle(o.envelope, metadata, ByPort(PortsFor(descriptor, side), back)))
  {
    hide Open, CheckEnvelope, Convert, CheckSchema, ByPort;
    var tensors := f[o.envelopeEnd + o.envelope.metadataLen..];
    assert tensors == f[o.envelopeEnd + o.envelope.metadataLen..|f|];
  }

  lemma BackInPortOrder(ports: seq<Port>, tensors: seq<Tensor>, back: seq<Tensor>)
    requires DistinctPorts(ports) && Conforms(ports, back) && SameTensors(tensors, back)
    ensures InPortOrder(ports, tensors, ByPort(ports, back))
  {
    ByPortIsPortOrder(ports, back);
  }

  // ---------------------------------------------------------------------------
  // The stream header
  // ---------------------------------------------------------------------------

  lemma {:induction false} InfosFacts(tensors: seq<Tensor>)
    requires forall t :: t in tensors ==> SizedRight(t)
    ensures Contiguous(Infos(tensors)) && DataLen(Infos(tensors)) == |Data(tensors)|
    ensures forall i :: 0 <= i < |tensors| ==> InfoOf(Infos(tensors)[i], tensors[i])
    decreases |tensors|
  {
    hide ByteSize;
    if tensors != [] {
      var front, last := tensors[..|tensors| - 1], tensors[|tensors| - 1];
      InfosFacts(front);
      assert SizedRight(last);
    }
  }

  predicate InfoOf(info: Info, t: Tensor) {
    && info.name == t.name && info.dtype == Known(t.dtype) && info.shape == t.shape
    && info.end == info.begin + |t.data|
  }

  /** The entries, one by one, of the tensors. */
  predicate Describes(infos: seq<Info>, tensors: seq<Tensor>) {
    |infos| == |tensors| && forall i :: 0 <= i < |infos| ==> InfoOf(infos[i], tensors[i])
  }

  lemma Described(infos: seq<Info>, tensors: seq<Tensor>, info: Info) returns (t: Tensor)
    requires Describes(infos, tensors) && info in infos
    ensures t in tensors && InfoOf(info, t)
  {
    var k :| 0 <= k < |infos| && infos[k] == info;
    t := tensors[k];
  }

  lemma Describing(infos: seq<Info>, tensors: seq<Tensor>, t: Tensor) returns (info: Info)
    requires Describes(infos, tensors) && t in tensors
    ensures info in infos && InfoOf(info, t)
  {
    var k :| 0 <= k < |tensors| && tensors[k] == t;
    info := infos[k];
  }

  function TensorApart(): (Tensor, Tensor) -> bool {
    (t: Tensor, u: Tensor) => t.name != u.name
  }

  /** The tensors as they are written: the same ones, in the library's order, back to back. */
  lemma WrittenFacts(tensors: seq<Tensor>)
    requires DistinctTensors(tensors) && forall t :: t in tensors ==> SizedRight(t)
    ensures SameTensors(Arrange(tensors), tensors) && DistinctNames(Written(tensors))
    ensures Contiguous(Written(tensors)) && DataLen(Written(tensors)) == |Data(Arrange(tensors))|
    ensures Describes(Written(tensors), Arrange(tensors))
  {
    SortedMembers(tensors, WritesBefore());
    SortedPairwise(tensors, WritesBefore(), TensorApart());
    var arranged := Arrange(tensors);
    InfosFacts(arranged);
    forall i, j | 0 <= i < j < |arranged| ensures Written(tensors)[i].name != Written(tensors)[j].name {
      assert TensorApart()(arranged[i], arranged[j]);
      assert InfoOf(Written(tensors)[i], arranged[i]) && InfoOf(Written(tensors)[j], arranged[j]);
    }
  }

  /** Entries that were written read back as they are, unless one has the reserved name. */
  lemma {:induction false} EntriesBack(infos: seq<Info>)
    requires forall i :: 0 <= i < |infos| ==> infos[i].name != METADATA_KEY
    ensures TensorEntries(JsonOf(infos)) == Some(infos)
    decreases |infos|
  {
    if infos != [] {
      var front := infos[..|infos| - 1];
      assert forall i :: 0 <= i < |front| ==> front[i] == infos[i];
      EntriesBack(front);
      assert JsonOf(infos)[..|infos| - 1] == JsonOf(front);
      assert infos == front + [infos[|infos| - 1]];
    }
  }

  /** The reserved key holds strings, every other key a tensor. */
  predicate Readable(e: JsonEntry) {
    if e.name == METADATA_KEY then e.value.StringMap? else e.value.TensorValue?
  }

  predicate Announces(e: JsonEntry, info: Info) {
    e.name != METADATA_KEY && e.name == info.name
    && e.value == TensorValue(info.dtype, info.shape, info.begin, info.end)
  }

  /** Which headers read, and what they say: every key must be readable, and each but the reserved one is an entry. */
  lemma {:induction false} EntriesExactly(entries: seq<JsonEntry>)
    ensures TensorEntries(entries).Some? <==> forall e :: e in entries ==> Readable(e)
    ensures TensorEntries(entries).Some? ==>
      && (forall e :: e in entries && e.name != METADATA_KEY ==>
        exists info :: info in TensorEntries(entries).value && Announces(e, info))
      && (forall info :: info in TensorEntries(entries).value ==> exists e :: e in entries && Announces(e, info))
    decreases |entries|
  {
    if entries != [] {
      var front, last := entries[..|entries| - 1], entries[|entries| - 1];
      assert entries == front + [last];
      EntriesExactly(front);
      assert last in entries;
      if TensorEntries(entries).Some? && last.name != METADATA_KEY {
        var infos := TensorEntries(entries).value;
        assert Announces(last, infos[|infos| - 1]) && infos == infos[..|infos| - 1] + [infos[|infos| - 1]];
        forall info | info in infos ensures exists e :: e in entries && Announces(e, info) {
          if info in infos[..|infos| - 1] {
            var e :| e in front && Announces(e, info);
            assert e in entries;
          }
        }
      }
    }
  }

  /** The shell of an entry of a known type. */
  function ShellOf(info: Info): Tensor
    requires info.dtype.Known?
  {
    Tensor(info.name, info.dtype.dtype, info.shape, [])
  }

  lemma {:induction false} ShellsBack(infos: seq<Info>)
    requires forall i :: 0 <= i < |infos| ==> infos[i].dtype.Known?
    ensures Shells(infos).Some? && |Shells(infos).value| == |infos|
    ensures forall i :: 0 <= i < |infos| ==> Shells(infos).value[i] == ShellOf(infos[i])
    decreases |infos|
  {
    if infos != [] {
      var front := infos[..|infos| - 1];
      assert forall i :: 0 <= i < |front| ==> front[i] == infos[i];
      ShellsBack(front);
    }
  }

  /** Entries of the written tensors have the shapes of the tensors, wherever they stand. */
  lemma EntriesAlike(tensors: seq<Tensor>, written: seq<Info>, arranged: seq<Tensor>, entries: seq<Info>)
    requires Describes(written, arranged) && SameTensors(arranged, tensors) && SameMembers(written, entries)
    ensures Shells(entries).Some? && SameShapes(tensors, Shells(entries).value)
  {
    hide Shells, Describes;
    forall i | 0 <= i < |entries| ensures entries[i].dtype.Known? {
      assert entries[i] in entries;
      var t := Described(written, arranged, entries[i]);
    }
    ShellsBack(entries);
    WrittenCount(written, arranged);
    var shells := Shells(entries).value;
    forall t | t in tensors ensures HasShape(shells, t) {
      assert t in arranged;
      var info := Describing(written, arranged, t);
      assert info in entries;
      var k :| 0 <= k < |entries| && entries[k] == info;
      assert shells[k] in shells && shells[k] == ShellOf(info);
    }
    forall s | s in shells ensures HasShape(tensors, s) {
      var k :| 0 <= k < |shells| && shells[k] == s;
      assert entries[k] in entries && shells[k] == ShellOf(entries[k]);
      var t := Described(written, arranged, entries[k]);
      assert t in tensors;
    }
  }

  lemma WrittenCount(written: seq<Info>, arranged: seq<Tensor>)
    requires Describes(written, arranged)
    ensures |written| == |arranged|
  {
  }

  /** The header of an encoded frame is everything before the tensor data. */
  function HeaderLen(descriptor: Descriptor, side: Side, tensors: seq<Tensor>, metadata: Metadata): nat
    requires Encode(descriptor, side, tensors, metadata).Ok?
  {
    var n := |Encode(descriptor, side, tensors, metadata).value|;
    if |Data(Arrange(tensors))| <= n then n - |Data(Arrange(tensors))| else 0
  }

  lemma SerializedPieces(tensors: seq<Tensor>)
    ensures var (s, h) := (Serialize(tensors), HeaderBytes(tensors));
            && |s| == 8 + |h| + |Data(Arrange(tensors))|
            && s[..8] == LE(|h|, 8) && s[8..8 + |h|] == h
            && (|h| < U64_LIMIT ==> FromLE(s[..8]) == |h|)
  {
    var h, data := HeaderBytes(tensors), Data(Arrange(tensors));
    CutMiddle([], LE(|h|, 8), h + data);
    CutMiddle(LE(|h|, 8), h, data);
    assert [] + LE(|h|, 8) + (h + data) == Serialize(tensors);
    WidthLimits();
    if |h| < U64_LIMIT { LengthRoundTrip(|h|, 8); }
  }

  /** What the header of an encoded frame says, read from the frame or from the header alone. */
  lemma EncodedHeader(descriptor: Descriptor, side: Side, tensors: seq<Tensor>, metadata: Metadata)
    requires Encode(descriptor, side, tensors, metadata).Ok?
    requires PostcardReads(EnvelopeOf(descriptor, side, tensors, metadata), metadata)
    requires |Encode(descriptor, side, tensors, metadata).value| < U64_LIMIT
    ensures var (f, n) := (Encode(descriptor, side, tensors, metadata).value, HeaderLen(descriptor, side, tensors, metadata));
            && Open(f).Ok? && n <= |f| && Open(f[..n]) == Open(f)
            && var o := Open(f).value;
            var lenEnd := o.envelopeEnd + o.envelope.metadataLen + 8;
            && n == lenEnd + |HeaderBytes(tensors)| && f[lenEnd..n] == HeaderBytes(tensors)
            && HeaderEnd(o, f) == Ok((lenEnd, n)) && HeaderEnd(o, f[..n]) == Ok((lenEnd, n))
            && o.envelope == EnvelopeOf(descriptor, side, tensors, metadata)
            && |f| == n + |Data(Arrange(tensors))|
            && o.envelope.tensorLen == 8 + |HeaderBytes(tensors)| + |Data(Arrange(tensors))|
  {
    hide Serialize, Open, Encode, HeaderBytes, HeaderEnd, FromLE, LE, PostcardReads;
    var f := Encode(descriptor, side, tensors, metadata).value;
    EncodedFrame(descriptor, side, tensors, metadata);
    SerializedPieces(tensors);
    var o := Open(f).value;
    var start := o.envelopeEnd + o.envelope.metadataLen;
    var n := HeaderLen(descriptor, side, tensors, metadata);
    var s := Serialize(tensors);
    assert n == start + 8 + |HeaderBytes(tensors)|;
    Slices(f, start, s, n);
    OpensAlike(f[..n], f);
    HeaderEndIs(o, f, n, |HeaderBytes(tensors)|);
    HeaderEndIs(o, f[..n], n, |HeaderBytes(tensors)|);
  }

  lemma HeaderEndIs(o: Opened, bytes: Bytes, n: nat, len: nat)
    requires n == o.envelopeEnd + o.envelope.metadataLen + 8 + len && n <= |bytes| && n < U64_LIMIT
    requires FromLE(bytes[o.envelopeEnd + o.envelope.metadataLen..o.envelopeEnd + o.envelope.metadataLen + 8]) == len
    ensures HeaderEnd(o, bytes) == Ok((n - len, n))
  {
  }

  lemma Slices(f: Bytes, start: nat, s: Bytes, n: nat)
    requires start <= |f| && f[start..] == s && start + 8 <= n <= |f|
    ensures f[start..start + 8] == s[..8] && f[..n][start..start + 8] == s[..8] && f[start + 8..n] == s[8..n - start]
    ensures f[..n][start + 8..n] == s[8..n - start]
  {
    assert f[start..][8..n - start] == f[start + 8..n];
  }

  /** `tensor_stream_header` returns the beginning of the frame up to the tensor data. */
  lemma StreamHeaderIsPrefix(descriptor: Descriptor, side: Side, tensors: seq<Tensor>, metadata: Metadata)
    requires Encode(descriptor, side, tensors, metadata).Ok?
    requires PostcardReads(EnvelopeOf(descriptor, side, tensors, metadata), metadata)
    requires |Encode(descriptor, side, tensors, metadata).value| < U64_LIMIT
    ensures var (f, n) := (Encode(descriptor, side, tensors, metadata).value, HeaderLen(descriptor, side, tensors, metadata));
            n <= |f| && StreamHeader(f) == Ok(f[..n])
  {
    hide Encode, Open, HeaderEnd, HeaderLen, PostcardReads;
    EncodedHeader(descriptor, side, tensors, metadata);
    var f, n := Encode(descriptor, side, tensors, metadata).value, HeaderLen(descriptor, side, tensors, metadata);
    HeaderRead(f, Open(f).value, n);
  }

  lemma HeaderRead(f: Bytes, o: Opened, n: nat)
    requires Open(f) == Ok(o) && HeaderEnd(o, f).Ok? && HeaderEnd(o, f).value.1 == n <= |f|
    ensures StreamHeader(f) == Ok(f[..n])
  {
    hide Open, HeaderEnd;
  }

  /** The header read back and checked against the ports of a contract. */
  lemma EntriesChecked(descriptor: Descriptor, side: Side, tensors: seq<Tensor>, o: Opened, lenEnd: nat, headerEnd: nat)
    requires DistinctTensors(tensors) && (forall t :: t in tensors ==> SizedRight(t)) && lenEnd <= headerEnd
    requires o.envelope.tensorLen == 8 + (headerEnd - lenEnd) + |Data(Arrange(tensors))|
    requires o.envelopeEnd + o.envelope.metadataLen + o.envelope.tensorLen < U64_LIMIT
    ensures var r := CheckEntries(descriptor, side, o, lenEnd, headerEnd, SortByBegin(SortByName(Written(tensors))));
      var ports := PortsFor(descriptor, side);
      && (Clash(SortByName(Written(tensors))) ==> r == Err(BadTensors))
      && (r.Ok? <==> !Clash(SortByName(Written(tensors))) && DistinctPorts(ports) && Conforms(ports, tensors))
      && (r.Ok? ==> r.value == o.envelopeEnd + o.envelope.metadataLen + o.envelope.tensorLen)
  {
    hide Conforms, Written, Arrange, SizedRight, Contiguous, Clash, CheckSchema, Shells, DistinctPorts, DistinctTensors,
      Describes;
    var read, ports := SortByName(Written(tensors)), PortsFor(descriptor, side);
    WrittenFacts(tensors);
    NamesSorted(Written(tensors));
    SortedOffsetsExactly(Written(tensors), read);
    SortedMembers(read, BeginLess());
    EntriesAlike(tensors, Written(tensors), Arrange(tensors), SortByBegin(read));
    var shells := Shells(SortByBegin(read)).value;
    if Conforms(ports, tensors) { ConformsAlike(ports, tensors, shells); }
    if Conforms(ports, shells) { ConformsAlike(ports, shells, tensors); }
    CheckedIsConforming(ports, shells);
  }

  /**
   * A tensor with data, written behind an empty one with only empty ones between them, although its name comes first.
   * Within one element type names are written in order, so the empty tensor is of a higher-ranked type.
   */
  predicate EmptyAhead(arranged: seq<Tensor>, a: nat, b: nat) {
    && a < b < |arranged| && (forall c :: a <= c < b ==> arranged[c].data == [])
    && arranged[b].data != [] && NameLess(arranged[b].name, arranged[a].name)
  }

  lemma EmptyAheadIsWritten(written: seq<Info>, arranged: seq<Tensor>, a: nat, b: nat)
    requires Describes(written, arranged)
    ensures EmptyBefore(written, a, b) <==> EmptyAhead(arranged, a, b)
  {
    hide NameLess;
    assert forall i :: 0 <= i < |arranged| ==> InfoOf(written[i], arranged[i]);
  }

  /**
   * Which validators accept the header of an encoded frame: those for the same contract and side whose ports the tensors
   * conform to, unless an empty tensor is written ahead of one with data whose name comes before its own. They announce
   * the exact length of the frame; one for another contract or side names the first difference.
   */
  lemma HeaderValidatesFor(
    descriptor: Descriptor, side: Side, tensors: seq<Tensor>, metadata: Metadata, expected: Descriptor, expectedSide: Side)
    requires Encode(descriptor, side, tensors, metadata).Ok?
    requires PostcardReads(EnvelopeOf(descriptor, side, tensors, metadata), metadata) && HeaderReads(tensors)
    requires forall t :: t in tensors ==> t.name != METADATA_KEY
    requires |Encode(descriptor, side, tensors, metadata).value| < U64_LIMIT
    ensures HeaderLen(descriptor, side, tensors, metadata) <= |Encode(descriptor, side, tensors, metadata).value|
    ensures var (f, n) := (Encode(descriptor, side, tensors, metadata).value, HeaderLen(descriptor, side, tensors, metadata));
            var r := ValidateStreamHeader(expected, expectedSide, f[..n]);
            var ports := PortsFor(expected, expectedSide);
            && (r.Ok? <==>
              && SameContract(descriptor, expected) && side == expectedSide
              && DistinctPorts(ports) && Conforms(ports, tensors)
              && !exists a, b :: EmptyAhead(Arrange(tensors), a, b))
            && (r.Ok? ==> r.value == |f|)
            && (ForeignFrame(descriptor, side, expected, expectedSide).Some? ==>
              r == Err(ForeignFrame(descriptor, side, expected, expectedSide).value))
            && (ForeignFrame(descriptor, side, expected, expectedSide).None? ==>
              ((exists a, b :: EmptyAhead(Arrange(tensors), a, b)) ==> r == Err(BadTensors)))
  {
    hide Conforms, Serialize, Open, HeaderEnd, HeaderBytes, Encode, HeaderLen, CheckEntries, SizedRight, Written, Arrange,
      EmptyAhead, EmptyBefore, SortByName, SortByBegin, TensorEntries, JsonOf, DistinctTensors, DistinctPorts, Clash,
      CheckEnvelope, SameContract, ForeignFrame;
    EncodedHeader(descriptor, side, tensors, metadata);
    EncodedArguments(descriptor, side, tensors, metadata);
    var f, n := Encode(descriptor, side, tensors, metadata).value, HeaderLen(descriptor, side, tensors, metadata);
    var o := Open(f).value;
    var lenEnd := o.envelopeEnd + o.envelope.metadataLen + 8;
    assert f[..n][lenEnd..n] == f[lenEnd..n];
    EntriesRead(tensors);
    EnvelopeChecked(descriptor, side, tensors, metadata, expected, expectedSide);
    EntriesChecked(expected, expectedSide, tensors, o, lenEnd, n);
    ClashExactlyAhead(tensors);
  }

  /**
   * Validating the header of an encoded frame for its own contract returns the exact length of the frame, unless an empty
   * tensor is written ahead of one with data whose name comes before its own. Then the header is rejected, though the
   * frame is not.
   */
  lemma HeaderValidatesExactly(descriptor: Descriptor, side: Side, tensors: seq<Tensor>, metadata: Metadata)
    requires Encode(descriptor, side, tensors, metadata).Ok?
    requires PostcardReads(EnvelopeOf(descriptor, side, tensors, metadata), metadata) && HeaderReads(tensors)
    requires forall t :: t in tensors ==> t.name != METADATA_KEY
    requires |Encode(descriptor, side, tensors, metadata).value| < U64_LIMIT
    ensures var (f, n) := (Encode(descriptor, side, tensors, metadata).value, HeaderLen(descriptor, side, tensors, metadata));
            n <= |f| && ValidateStreamHeader(descriptor, side, f[..n])
              == if exists a, b :: EmptyAhead(Arrange(tensors), a, b) then Err(BadTensors) else Ok(|f|)
  {
    hide Conforms, Encode, HeaderLen, ValidateStreamHeader, EmptyAhead, Arrange, DistinctPorts, DistinctTensors, SizedRight;
    HeaderValidatesFor(descriptor, side, tensors, metadata, descriptor, side);
    EncodedArguments(descriptor, side, tensors, metadata);
  }

  lemma EntriesRead(tensors: seq<Tensor>)
    requires DistinctTensors(tensors) && (forall t :: t in tensors ==> SizedRight(t))
    requires forall t :: t in tensors ==> t.name != METADATA_KEY
    ensures TensorEntries(JsonOf(SortByName(Written(tensors)))) == Some(SortByName(Written(tensors)))
  {
    hide SizedRight, DistinctTensors, Written, Arrange, Describes, SortByName, JsonOf, Contiguous;
    WrittenFacts(tensors);
    NamesSorted(Written(tensors));
    var read := SortByName(Written(tensors));
    forall i | 0 <= i < |read| ensures read[i].name != METADATA_KEY {
      assert read[i] in read;
      var t := Described(Written(tensors), Arrange(tensors), read[i]);
    }
    EntriesBack(read);
  }

  lemma ClashExactlyAhead(tensors: seq<Tensor>)
    requires DistinctTensors(tensors) && (forall t :: t in tensors ==> SizedRight(t))
    ensures Clash(SortByName(Written(tensors))) <==> exists a, b :: EmptyAhead(Arrange(tensors), a, b)
  {
    hide SizedRight, DistinctTensors, Written, Arrange, Clash, EmptyAhead, EmptyBefore, Describes;
    WrittenFacts(tensors);
    ClashExactly(Written(tensors));
    forall a: nat, b: nat ensures EmptyBefore(Written(tensors), a, b) <==> EmptyAhead(Arrange(tensors), a, b) {
      EmptyAheadIsWritten(Written(tensors), Arrange(tensors), a, b);
    }
  }

  /** Bundles without empty tensors always stream: the header is accepted and announces the frame's length. */
  lemma HeaderOfFullTensorsValidates(descriptor: Descriptor, side: Side, tensors: seq<Tensor>, metadata: Metadata)
    requires Encode(descriptor, side, tensors, metadata).Ok?
    requires PostcardReads(EnvelopeOf(descriptor, side, tensors, metadata), metadata) && HeaderReads(tensors)
    requires forall t :: t in tensors ==> t.name != METADATA_KEY && |t.data| > 0
    requires |Encode(descriptor, side, tensors, metadata).value| < U64_LIMIT
    ensures var (f, n) := (Encode(descriptor, side, tensors, metadata).value, HeaderLen(descriptor, side, tensors, metadata));
            n <= |f| && ValidateStreamHeader(descriptor, side, f[..n]) == Ok(|f|)
  {
    hide Encode, ValidateStreamHeader, HeaderLen, PostcardReads, HeaderReads, Arrange, EmptyAhead;
    HeaderValidatesExactly(descriptor, side, tensors, metadata);
    forall a: nat, b: nat ensures !EmptyAhead(Arrange(tensors), a, b) { NoneAhead(tensors, a, b); }
  }

  lemma NoneAhead(tensors: seq<Tensor>, a: nat, b: nat)
    requires forall t :: t in tensors ==> |t.data| > 0
    ensures !EmptyAhead(Arrange(tensors), a, b)
  {
    SortedMembers(tensors, WritesBefore());
    assert a < |Arrange(tensors)| ==> Arrange(tensors)[a] in Arrange(tensors);
  }

  /** A validated header fixes the length of every frame that begins with it and is accepted. */
  lemma HeaderFixesLength(descriptor: Descriptor, side: Side, header: Bytes, frame: Bytes)
    requires ValidateStreamHeader(descriptor, side, header).Ok? && Prefix(header, frame)
    requires Decode(descriptor, side, frame).Ok?
    ensures |frame| == ValidateStreamHeader(descriptor, side, header).value
  {
    hide CheckSchema, Open;
    DecodedLength(descriptor, side, frame);
    OpensAlike(header, frame);
  }
}
