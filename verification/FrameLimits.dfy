/** A bundle whose frame is accepted while the header that would lead its stream is not. */
module FrameLimits {
  import opened Basics
  import opened Schema
  import opened Sorting
  import opened TensorOrder
  import opened HeaderOffsets
  import opened FrameCodec
  import opened FrameProofs

  /** An empty tensor of doubles called "z", and one float called "a". */
  const EMPTY_Z := Tensor("z", F64, [0], [])
  const FULL_A := Tensor("a", F32, [1], [0, 0, 0, 0])
  const BUNDLE := [EMPTY_Z, FULL_A]
  const CONTRACT := Descriptor(1, 1, [Port("z", [Static(0)], Exact(F64)), Port("a", [Dynamic], AnyDtype)], [])

  lemma BundleIsSized()
    ensures forall t :: t in BUNDLE ==> SizedRight(t)
  {
    assert [0][..0] == [] && [1][..0] == [];
    assert Elements([0]) == Some(0) && Elements([1]) == Some(1);
    assert SizedRight(EMPTY_Z) && SizedRight(FULL_A);
  }

  lemma EmptyFits(port: Port, sizes: Sizes)
    requires port == CONTRACT.inputs[0]
    ensures PortFits(port, BUNDLE, sizes)
  {
    assert BUNDLE[0] in BUNDLE;
  }

  lemma FullFits(port: Port, sizes: Sizes)
    requires port == CONTRACT.inputs[1]
    ensures PortFits(port, BUNDLE, sizes)
  {
    assert BUNDLE[1] in BUNDLE;
  }

  lemma BundleConforms()
    ensures CheckSchema(CONTRACT.inputs, BUNDLE).Valid?
  {
    hide PortFits, CheckSchema;
    var ports := CONTRACT.inputs;
    assert ports[0] in ports && ports[1] in ports;
    assert HasPort(ports, "z") && HasPort(ports, "a");
    var none: Sizes := map[];
    EmptyFits(ports[0], none);
    FullFits(ports[1], none);
    assert AllFit(ports, BUNDLE, none);
    CheckedIsConforming(ports, BUNDLE);
  }

  /** The wider type is written first, so the empty tensor stands ahead. */
  lemma BundleArranged()
    requires DtypeRank(F64) > DtypeRank(F32)
    ensures Arrange(BUNDLE) == BUNDLE && EmptyAhead(Arrange(BUNDLE), 0, 1)
  {
    assert SortedBy(BUNDLE, WritesBefore());
    SortedIsFixed(BUNDLE, WritesBefore());
    assert NameLess("a", "z");
  }

  /**
   * The library ranks doubles above floats, the foreign codecs read this bundle back, and lengths fit: then encoding
   * succeeds, decoding the frame succeeds, and validating the frame's own stream header fails.
   */
  lemma EmptyTensorRejectsHeader(metadata: Metadata)
    requires DtypeRank(F64) > DtypeRank(F32)
    requires PostcardReads(EnvelopeOf(CONTRACT, Input, BUNDLE, metadata), metadata)
    requires BodyReads(BUNDLE) && HeaderReads(BUNDLE)
    requires |EncodeEnvelope(EnvelopeOf(CONTRACT, Input, BUNDLE, metadata))| < U32_LIMIT
    requires |EncodeMetadata(metadata)| + |Serialize(BUNDLE)| < U64_LIMIT - U32_LIMIT - PREFIX_LEN
    ensures Encode(CONTRACT, Input, BUNDLE, metadata).Ok?
    ensures var (f, n) := (Encode(CONTRACT, Input, BUNDLE, metadata).value, HeaderLen(CONTRACT, Input, BUNDLE, metadata));
            && Decode(CONTRACT, Input, f).Ok? && n <= |f| && StreamHeader(f) == Ok(f[..n])
            && ValidateStreamHeader(CONTRACT, Input, f[..n]) == Err(BadTensors)
  {
    hide Serialize, CheckSchema, SizedRight, Decode, ValidateStreamHeader, StreamHeader, EmptyAhead, BodyReads, HeaderReads,
      PostcardReads, HeaderLen, InPortOrder, Arrange;
    BundleIsSized();
    BundleConforms();
    var e := EncodeEnvelope(EnvelopeOf(CONTRACT, Input, BUNDLE, metadata));
    FramePieces(e, EncodeMetadata(metadata), Serialize(BUNDLE));
    assert Encode(CONTRACT, Input, BUNDLE, metadata) == Ok(Frame(e, EncodeMetadata(metadata), Serialize(BUNDLE)));
    FrameRoundTrip(CONTRACT, Input, BUNDLE, metadata);
    StreamHeaderIsPrefix(CONTRACT, Input, BUNDLE, metadata);
    HeaderValidatesExactly(CONTRACT, Input, BUNDLE, metadata);
    BundleArranged();
  }
}
