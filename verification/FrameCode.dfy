/** The frame codec as the source runs it: buffers that grow, tensors that are converted one by one and sorted. */
module FrameCode {
  import opened Basics
  import opened Schema
  import opened Sorting
  import opened TensorOrder
  import opened HeaderOffsets
  import opened FrameCodec

  /** The first tensor whose bytes do not make its shape ends the encoding. */
  method CheckViews(tensors: seq<Tensor>) returns (ok: bool)
    ensures ok <==> forall t :: t in tensors ==> SizedRight(t)
  {
    for i := 0 to |tensors|
      invariant forall j :: 0 <= j < i ==> SizedRight(tensors[j])
    {
      if !SizedRight(tensors[i]) {
        assert tensors[i] in tensors;
        return false;
      }
    }
    ok := true;
  }

  method CheckAgainst(ports: seq<Port>, tensors: seq<Tensor>) returns (r: Outcome)
    ensures r == CheckSchema(ports, tensors)
    ensures r.Valid? <==> DistinctPorts(ports) && Conforms(ports, tensors)
  {
    r := ValidateSchema(ports);
    if r.Valid? { r := ValidateTensors(ports, tensors); }
  }

  /** `encode_descriptor`. */
  method EncodeDescriptor(descriptor: Descriptor, side: Side, tensors: seq<Tensor>, metadata: Metadata)
    returns (r: Result<Bytes, CodecError>)
    ensures r == Encode(descriptor, side, tensors, metadata)
  {
    hide CheckSchema, Serialize, SizedRight, Conforms, DistinctPorts;
    var schema := CheckAgainst(PortsFor(descriptor, side), tensors);
    if schema.Invalid? { return Err(SchemaError(schema.error)); }
    var ok := CheckViews(tensors);
    if !ok { return Err(BadTensors); }
    var tensorBytes := Serialize(tensors);
    var metadataBytes := EncodeMetadata(metadata);
    if |metadataBytes| >= U64_LIMIT || |tensorBytes| >= U64_LIMIT { return Err(LengthOverflow); }
    var envelope := EncodeEnvelope(EnvelopeFor(descriptor, side, |metadataBytes|, |tensorBytes|));
    if |envelope| >= U32_LIMIT { return Err(LengthOverflow); }
    var frame: Bytes := [];
    frame := frame + MAGIC;
    assert frame == MAGIC;
    frame := frame + LE(|envelope|, 4);
    frame := frame + envelope;
    frame := frame + metadataBytes;
    frame := frame + tensorBytes;
    r := Ok(frame);
  }

  lemma {:induction false} UnknownStays(stored: seq<StoredTensor>, n: nat)
    requires n <= |stored| && Convert(stored[..n]).None?
    ensures Convert(stored).None?
    decreases |stored|
  {
    if n < |stored| {
      assert stored[..|stored| - 1][..n] == stored[..n];
      UnknownStays(stored[..|stored| - 1], n);
    } else {
      assert stored[..n] == stored;
    }
  }

  /** Pushes the stored tensors one after the other, until one has an unknown element type. */
  method ConvertAll(stored: seq<StoredTensor>) returns (r: Option<seq<Tensor>>)
    ensures r == Convert(stored)
  {
    var tensors: seq<Tensor> := [];
    for i := 0 to |stored|
      invariant Convert(stored[..i]) == Some(tensors)
    {
      assert stored[..i + 1][..i] == stored[..i];
      if stored[i].dtype.Foreign? {
        UnknownStays(stored, i + 1);
        return None;
      }
      tensors := tensors + [Tensor(stored[i].name, stored[i].dtype.dtype, stored[i].shape, stored[i].data)];
    }
    assert stored[..|stored|] == stored;
    r := Some(tensors);
  }

  /** `decode_descriptor`. */
  method DecodeDescriptor(descriptor: Descriptor, side: Side, frame: Bytes) returns (r: Result<Bundle, CodecError>)
    ensures r == Decode(descriptor, side, frame)
  {
    hide CheckSchema, Open, Convert, Conforms, DistinctPorts;
    var opening := Open(frame);
    if opening.Err? { return Err(opening.error); }
    var o := opening.value;
    var mismatch := CheckEnvelope(o.envelope, descriptor, side);
    if mismatch.Some? { return Err(mismatch.value); }
    var ends := Ends(o);
    if ends.None? { return Err(LengthOverflow); }
    var (metadataEnd, tensorEnd) := ends.value;
    if tensorEnd != |frame| { return Err(LengthMismatch); }
    var metadata := DecodeMetadata(frame[o.envelopeEnd..metadataEnd]);
    if metadata.None? { return Err(Undecodable); }
    var stored := Deserialize(frame[metadataEnd..tensorEnd]);
    if stored.None? { return Err(BadTensors); }
    var tensors := ConvertAll(stored.value);
    if tensors.None? { return Err(UnsupportedDtype); }
    var ports := PortsFor(descriptor, side);
    var schema := CheckAgainst(ports, tensors.value);
    if schema.Invalid? { return Err(SchemaError(schema.error)); }
    r := Ok(Bundle(o.envelope, metadata.value, ByPort(ports, tensors.value)));
  }

  lemma {:induction false} BadEntryStays(entries: seq<JsonEntry>, n: nat)
    requires n <= |entries| && TensorEntries(entries[..n]).None?
    ensures TensorEntries(entries).None?
    decreases |entries|
  {
    if n < |entries| {
      assert entries[..|entries| - 1][..n] == entries[..n];
      BadEntryStays(entries[..|entries| - 1], n);
    } else {
      assert entries[..n] == entries;
    }
  }

  /** Sets the library's own metadata aside and collects the tensor entries. */
  method CollectInfos(entries: seq<JsonEntry>) returns (r: Option<seq<Info>>)
    ensures r == TensorEntries(entries)
  {
    var infos: seq<Info> := [];
    for i := 0 to |entries|
      invariant TensorEntries(entries[..i]) == Some(infos)
    {
      assert entries[..i + 1][..i] == entries[..i];
      var value := entries[i].value;
      if entries[i].name == METADATA_KEY {
        if !value.StringMap? {
          BadEntryStays(entries, i + 1);
          return None;
        }
      } else if value.TensorValue? {
        infos := infos + [Info(entries[i].name, value.dtype, value.shape, value.begin, value.end)];
      } else {
        BadEntryStays(entries, i + 1);
        return None;
      }
    }
    assert entries[..|entries|] == entries;
    r := Some(infos);
  }

  lemma {:induction false} UnknownShellStays(infos: seq<Info>, n: nat)
    requires n <= |infos| && Shells(infos[..n]).None?
    ensures Shells(infos).None?
    decreases |infos|
  {
    if n < |infos| {
      assert infos[..|infos| - 1][..n] == infos[..n];
      UnknownShellStays(infos[..|infos| - 1], n);
    } else {
      assert infos[..n] == infos;
    }
  }

  /** The tensors that the sorted entries announce, without their data. */
  method CollectShells(infos: seq<Info>) returns (r: Option<seq<Tensor>>)
    ensures r == Shells(infos)
  {
    var tensors: seq<Tensor> := [];
    for i := 0 to |infos|
      invariant Shells(infos[..i]) == Some(tensors)
    {
      assert infos[..i + 1][..i] == infos[..i];
      if infos[i].dtype.Foreign? {
        UnknownShellStays(infos, i + 1);
        return None;
      }
      tensors := tensors + [Tensor(infos[i].name, infos[i].dtype.dtype, infos[i].shape, [])];
    }
    assert infos[..|infos|] == infos;
    r := Some(tensors);
  }

  /** `validate_tensor_stream_header`. */
  method ValidateHeader(descriptor: Descriptor, side: Side, header: Bytes) returns (r: Result<nat, CodecError>)
    ensures r == ValidateStreamHeader(descriptor, side, header)
  {
    hide CheckSchema, Open, HeaderEnd, Shells, TensorEntries, Conforms, DistinctPorts, Contiguous;
    var opening := Open(header);
    if opening.Err? { return Err(opening.error); }
    var o := opening.value;
    var mismatch := CheckEnvelope(o.envelope, descriptor, side);
    if mismatch.Some? { return Err(mismatch.value); }
    var end := HeaderEnd(o, header);
    if end.Err? { return Err(end.error); }
    var (lenEnd, headerEnd) := end.value;
    if headerEnd != |header| { return Err(LengthMismatch); }
    var entries := ParseJson(header[lenEnd..headerEnd]);
    if entries.None? { return Err(Undecodable); }
    var collected := CollectInfos(entries.value);
    if collected.None? { return Err(Undecodable); }
    var infos := SortByBegin(collected.value);
    if !Contiguous(infos) { return Err(BadTensors); }
    var tensorsLen := 8 + (headerEnd - lenEnd) + DataLen(infos);
    if tensorsLen >= U64_LIMIT { return Err(LengthOverflow); }
    if tensorsLen != o.envelope.tensorLen { return Err(LengthMismatch); }
    var tensors := CollectShells(infos);
    if tensors.None? { return Err(UnsupportedDtype); }
    var schema := CheckAgainst(PortsFor(descriptor, side), tensors.value);
    if schema.Invalid? { return Err(SchemaError(schema.error)); }
    match CheckedAdd(o.envelopeEnd + o.envelope.metadataLen, tensorsLen)
    case None => r := Err(LengthOverflow);
    case Some(full) => r := Ok(full);
  }
}
