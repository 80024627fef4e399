/**
 * The tensor frame: a fixed prefix, an envelope, metadata and a safetensors body. Encoding, decoding, and the header
 * that leads a live stream.
 */
module FrameCodec {
  import opened Basics
  import opened Schema
  import opened TensorOrder
  import opened Sorting
  import opened HeaderOffsets

  // ---------------------------------------------------------------------------
  // Foreign codecs
  // ---------------------------------------------------------------------------

  datatype Side = Input | Output

  datatype Descriptor = Descriptor(id: nat, version: nat, inputs: seq<Port>, outputs: seq<Port>)

  datatype Envelope = Envelope(
    version: nat,
    contractId: nat,
    contractVersion: nat,
    contractHash: nat,
    side: Side,
    tensorEncoding: nat,
    metadataEncoding: nat,
    metadataLen: nat,
    tensorLen: nat)

  type Metadata = nat

  /** Postcard for the envelope and the metadata; the digest of a contract. */
  const EncodeEnvelope: Envelope -> Bytes
  const DecodeEnvelope: Bytes -> Option<Envelope>
  const EncodeMetadata: Metadata -> Bytes
  const DecodeMetadata: Bytes -> Option<Metadata>
  const DescriptorHash: Descriptor -> nat

  /** A tensor as the safetensors library hands it back. */
  datatype StoredTensor = StoredTensor(name: string, dtype: StoredDtype, shape: seq<nat>, data: Bytes)

  /** One key of the JSON header; keys come sorted. Anything but a tensor's entry or a map of strings is `Other`. */
  datatype Value = TensorValue(dtype: StoredDtype, shape: seq<nat>, begin: nat, end: nat) | StringMap | OtherValue
  datatype JsonEntry = JsonEntry(name: string, value: Value)

  /** The safetensors library: its ranking of element types, its header text, and how bytes are read back. */
  const DtypeRank: Dtype -> nat
  const EncodeHeader: seq<Info> -> Bytes
  const ParseJson: Bytes -> Option<seq<JsonEntry>>
  const Deserialize: Bytes -> Option<seq<StoredTensor>>

  const METADATA_KEY := "__metadata__"

  /** The library writes higher-ranked types first, and names in order. */
  function WritesBefore(): (Tensor, Tensor) -> bool {
    (t: Tensor, u: Tensor) =>
      DtypeRank(t.dtype) > DtypeRank(u.dtype) || (DtypeRank(t.dtype) == DtypeRank(u.dtype) && NameLess(t.name, u.name))
  }

  function Arrange(tensors: seq<Tensor>): seq<Tensor> {
    SortBy(tensors, WritesBefore())
  }

  function Infos(tensors: seq<Tensor>): (r: seq<Info>)
    ensures |r| == |tensors|
  {
    if tensors == [] then []
    else
      var front, last := Infos(tensors[..|tensors| - 1]), tensors[|tensors| - 1];
      front + [Info(last.name, Known(last.dtype), last.shape, DataLen(front), DataLen(front) + |last.data|)]
  }

  function Data(tensors: seq<Tensor>): Bytes {
    if tensors == [] then [] else Data(tensors[..|tensors| - 1]) + tensors[|tensors| - 1].data
  }

  /** The entries of a header as they are written. */
  function Written(tensors: seq<Tensor>): seq<Info> {
    Infos(Arrange(tensors))
  }

  function HeaderBytes(tensors: seq<Tensor>): Bytes {
    EncodeHeader(Written(tensors))
  }

  /** A length, the header, and the data back to back. */
  function Serialize(tensors: seq<Tensor>): Bytes {
    LE(|HeaderBytes(tensors)|, 8) + HeaderBytes(tensors) + Data(Arrange(tensors))
  }

  predicate SizedRight(t: Tensor) {
    ByteSize(Known(t.dtype), t.shape) == Some(|t.data|)
  }

  function AsStored(t: Tensor): StoredTensor {
    StoredTensor(t.name, Known(t.dtype), t.shape, t.data)
  }

  /** `from_safetensors_dtype` for one tensor after the other, until one has an unknown type. */
  function Convert(stored: seq<StoredTensor>): Option<seq<Tensor>> {
    if stored == [] then Some([])
    else
      match Convert(stored[..|stored| - 1])
      case None => None
      case Some(front) =>
        var last := stored[|stored| - 1];
        if last.dtype.Foreign? then None else Some(front + [Tensor(last.name, last.dtype.dtype, last.shape, last.data)])
  }

  /** The tensor entries of a header: `__metadata__` is set aside when it is a map of strings. */
  function TensorEntries(entries: seq<JsonEntry>): Option<seq<Info>> {
    if entries == [] then Some([])
    else
      match TensorEntries(entries[..|entries| - 1])
      case None => None
      case Some(front) =>
        var last := entries[|entries| - 1];
        if last.name == METADATA_KEY then (if last.value.StringMap? then Some(front) else None)
        else if last.value.TensorValue? then
          Some(front + [Info(last.name, last.value.dtype, last.value.shape, last.value.begin, last.value.end)])
        else None
  }

  function JsonOf(infos: seq<Info>): (r: seq<JsonEntry>)
    ensures |r| == |infos|
  {
    seq(|infos|, i requires 0 <= i < |infos| =>
      JsonEntry(infos[i].name, TensorValue(infos[i].dtype, infos[i].shape, infos[i].begin, infos[i].end)))
  }

  // --- premises, each for the values at hand ---

  ghost predicate SameTensors(a: seq<Tensor>, b: seq<Tensor>) {
    |a| == |b| && forall t :: t in a <==> t in b
  }

  predicate Stores(s: StoredTensor, tensors: seq<Tensor>) {
    s.dtype.Known? && Tensor(s.name, s.dtype.dtype, s.shape, s.data) in tensors
  }

  predicate SameStored(stored: seq<StoredTensor>, tensors: seq<Tensor>) {
    && |stored| == |tensors|
    && (forall s :: s in stored ==> Stores(s, tensors))
    && (forall t :: t in tensors ==> AsStored(t) in stored)
  }

  /** Postcard reads back what it wrote. */
  predicate PostcardReads(envelope: Envelope, metadata: Metadata) {
    DecodeEnvelope(EncodeEnvelope(envelope)) == Some(envelope) && DecodeMetadata(EncodeMetadata(metadata)) == Some(metadata)
  }

  /** The library reads back the tensors that it wrote, in some order. */
  predicate BodyReads(tensors: seq<Tensor>) {
    Deserialize(Serialize(tensors)).Some? && SameStored(Deserialize(Serialize(tensors)).value, tensors)
  }

  /** The header is a JSON object whose keys are the names, so its entries come back in the order of their names. */
  predicate HeaderReads(tensors: seq<Tensor>) {
    ParseJson(HeaderBytes(tensors)) == Some(JsonOf(SortByName(Written(tensors))))
  }

  // ---------------------------------------------------------------------------
  // Little-endian lengths
  // ---------------------------------------------------------------------------

  function LE(n: nat, width: nat): (r: Bytes)
    ensures |r| == width
  {
    if width == 0 then [] else [n % 256] + LE(n / 256, width - 1)
  }

  function FromLE(bytes: Bytes): nat {
    if bytes == [] then 0 else bytes[0] + 256 * FromLE(bytes[1..])
  }

  function Limit(width: nat): nat {
    if width == 0 then 1 else 256 * Limit(width - 1)
  }

  lemma {:induction false} LengthRoundTrip(n: nat, width: nat)
    requires n < Limit(width)
    ensures FromLE(LE(n, width)) == n
    decreases width
  {
    if width > 0 {
      LengthRoundTrip(n / 256, width - 1);
      assert LE(n, width)[1..] == LE(n / 256, width - 1);
    }
  }

  lemma WidthLimits()
    ensures Limit(4) == U32_LIMIT && Limit(8) == U64_LIMIT
  {
  }

  // ---------------------------------------------------------------------------
  // Frames
  // ---------------------------------------------------------------------------

  datatype CodecError =
    | Truncated
    | InvalidMagic
    | LengthOverflow
    | LengthMismatch
    | Undecodable
    | BadTensors
    | UnsupportedDtype
    | SchemaError(error: Error)
    | UnsupportedEnvelopeVersion
    | UnsupportedTensorEncoding
    | UnsupportedMetadataEncoding
    | ContractIdMismatch
    | ContractVersionMismatch
    | ContractHashMismatch
    | ContractSideMismatch

  /** The bytes of "BHSTEN01". */
  const MAGIC: Bytes := [66, 72, 83, 84, 69, 78, 48, 49]
  const PREFIX_LEN := 12
  const ENVELOPE_VERSION := 1
  const SAFETENSORS_V1 := 1
  const POSTCARD_V1 := 2

  /** `checked_add` on a 64-bit `usize`. */
  function CheckedAdd(a: nat, b: nat): Option<nat> {
    if a + b < U64_LIMIT then Some(a + b) else None
  }

  function PortsFor(descriptor: Descriptor, side: Side): seq<Port> {
    match side case Input => descriptor.inputs case Output => descriptor.outputs
  }

  /** `validate_runtime_envelope`. */
  function CheckEnvelope(envelope: Envelope, descriptor: Descriptor, side: Side): Option<CodecError> {
    if envelope.version != ENVELOPE_VERSION then Some(UnsupportedEnvelopeVersion)
    else if envelope.tensorEncoding != SAFETENSORS_V1 then Some(UnsupportedTensorEncoding)
    else if envelope.metadataEncoding != POSTCARD_V1 then Some(UnsupportedMetadataEncoding)
    else if envelope.contractId != descriptor.id then Some(ContractIdMismatch)
    else if envelope.contractVersion != descriptor.version then Some(ContractVersionMismatch)
    else if envelope.contractHash != DescriptorHash(descriptor) then Some(ContractHashMismatch)
    else if envelope.side != side then Some(ContractSideMismatch)
    else None
  }

  datatype Opened = Opened(envelopeEnd: nat, envelope: Envelope)

  /** The prefix and the envelope. */
  function Open(frame: Bytes): (r: Result<Opened, CodecError>)
    ensures r.Ok? ==> PREFIX_LEN <= r.value.envelopeEnd <= |frame|
  {
    if |frame| < PREFIX_LEN then Err(Truncated)
    else if frame[..8] != MAGIC then Err(InvalidMagic)
    else
      var envelopeEnd := PREFIX_LEN + FromLE(frame[8..PREFIX_LEN]);
      if |frame| < envelopeEnd then Err(Truncated)
      else
        match DecodeEnvelope(frame[PREFIX_LEN..envelopeEnd])
        case None => Err(Undecodable)
        case Some(envelope) => Ok(Opened(envelopeEnd, envelope))
  }

  /** Where metadata and tensors end. */
  function Ends(o: Opened): Option<(nat, nat)> {
    match CheckedAdd(o.envelopeEnd, o.envelope.metadataLen)
    case None => None
    case Some(metadataEnd) =>
      match CheckedAdd(metadataEnd, o.envelope.tensorLen)
      case None => None
      case Some(tensorEnd) => Some((metadataEnd, tensorEnd))
  }

  function EnvelopeFor(descriptor: Descriptor, side: Side, metadataLen: nat, tensorLen: nat): Envelope {
    Envelope(ENVELOPE_VERSION, descriptor.id, descriptor.version, DescriptorHash(descriptor), side,
      SAFETENSORS_V1, POSTCARD_V1, metadataLen, tensorLen)
  }

  /** Prefix, envelope, metadata and tensors back to back. */
  function Frame(envelope: Bytes, metadata: Bytes, tensors: Bytes): Bytes {
    MAGIC + LE(|envelope|, 4) + envelope + metadata + tensors
  }

  /** The schema and the tensors against it: the first error, if any. */
  function CheckSchema(ports: seq<Port>, tensors: seq<Tensor>): Outcome {
    var schema := SchemaOutcome(ports);
    if schema.Invalid? then schema else TensorsOutcome(ports, tensors)
  }

  /** `encode_descriptor`. */
  function Encode(descriptor: Descriptor, side: Side, tensors: seq<Tensor>, metadata: Metadata): Result<Bytes, CodecError>
  {
    var ports := PortsFor(descriptor, side);
    var schema := CheckSchema(ports, tensors);
    if schema.Invalid? then Err(SchemaError(schema.error))
    else if exists t :: t in tensors && !SizedRight(t) then Err(BadTensors)
    else
      var tensorBytes, metadataBytes := Serialize(tensors), EncodeMetadata(metadata);
      if |metadataBytes| >= U64_LIMIT || |tensorBytes| >= U64_LIMIT then Err(LengthOverflow)
      else
        var envelope := EncodeEnvelope(EnvelopeFor(descriptor, side, |metadataBytes|, |tensorBytes|));
        if |envelope| >= U32_LIMIT then Err(LengthOverflow)
        else Ok(Frame(envelope, metadataBytes, tensorBytes))
  }

  datatype Bundle = Bundle(envelope: Envelope, metadata: Metadata, tensors: seq<Tensor>)

  /** `decode_descriptor`. */
  function Decode(descriptor: Descriptor, side: Side, frame: Bytes): Result<Bundle, CodecError> {
    match Open(frame)
    case Err(error) => Err(error)
    case Ok(o) =>
      match CheckEnvelope(o.envelope, descriptor, side)
      case Some(error) => Err(error)
      case None =>
        match Ends(o)
        case None => Err(LengthOverflow)
        case Some((metadataEnd, tensorEnd)) =>
          if tensorEnd != |frame| then Err(LengthMismatch)
          else
            match DecodeMetadata(frame[o.envelopeEnd..metadataEnd])
            case None => Err(Undecodable)
            case Some(metadata) =>
              match Deserialize(frame[metadataEnd..tensorEnd])
              case None => Err(BadTensors)
              case Some(stored) =>
                match Convert(stored)
                case None => Err(UnsupportedDtype)
                case Some(tensors) =>
                  var ports := PortsFor(descriptor, side);
                  var schema := CheckSchema(ports, tensors);
                  if schema.Invalid? then Err(SchemaError(schema.error))
                  else Ok(Bundle(o.envelope, metadata, ByPort(ports, tensors)))
  }

  /** Where the safetensors header ends, when its length is there. */
  function HeaderEnd(o: Opened, bytes: Bytes): (r: Result<(nat, nat), CodecError>)
    ensures r.Ok? ==> r.value.0 == o.envelopeEnd + o.envelope.metadataLen + 8 <= r.value.1 && r.value.0 <= |bytes|
  {
    match CheckedAdd(o.envelopeEnd, o.envelope.metadataLen)
    case None => Err(LengthOverflow)
    case Some(tensorStart) =>
      match CheckedAdd(tensorStart, 8)
      case None => Err(LengthOverflow)
      case Some(lenEnd) =>
        if |bytes| < lenEnd then Err(Truncated)
        else
          match CheckedAdd(lenEnd, FromLE(bytes[tensorStart..lenEnd]))
          case None => Err(LengthOverflow)
          case Some(headerEnd) => Ok((lenEnd, headerEnd))
  }

  /** `tensor_stream_header`. */
  function StreamHeader(frame: Bytes): Result<Bytes, CodecError> {
    match Open(frame)
    case Err(error) => Err(error)
    case Ok(o) =>
      match HeaderEnd(o, frame)
      case Err(error) => Err(error)
      case Ok((_, headerEnd)) => if |frame| < headerEnd then Err(Truncated) else Ok(frame[..headerEnd])
  }

  /** What the schema checker sees of the header's entries, until one has an unknown type. */
  function Shells(infos: seq<Info>): Option<seq<Tensor>> {
    if infos == [] then Some([])
    else
      match Shells(infos[..|infos| - 1])
      case None => None
      case Some(front) =>
        var last := infos[|infos| - 1];
        if last.dtype.Foreign? then None else Some(front + [Tensor(last.name, last.dtype.dtype, last.shape, [])])
  }

  /** `validate_tensor_stream_header`: the length of the whole frame. */
  function ValidateStreamHeader(descriptor: Descriptor, side: Side, header: Bytes): Result<nat, CodecError> {
    match Open(header)
    case Err(error) => Err(error)
    case Ok(o) =>
      match CheckEnvelope(o.envelope, descriptor, side)
      case Some(error) => Err(error)
      case None =>
        match HeaderEnd(o, header)
        case Err(error) => Err(error)
        case Ok((lenEnd, headerEnd)) =>
          if headerEnd != |header| then Err(LengthMismatch)
          else
            match ParseJson(header[lenEnd..headerEnd])
            case None => Err(Undecodable)
            case Some(entries) =>
              match TensorEntries(entries)
              case None => Err(Undecodable)
              case Some(infos) => CheckEntries(descriptor, side, o, lenEnd, headerEnd, SortByBegin(infos))
  }

  function CheckEntries(
    descriptor: Descriptor, side: Side, o: Opened, lenEnd: nat, headerEnd: nat, infos: seq<Info>): Result<nat, CodecError>
    requires lenEnd <= headerEnd
  {
    var ports := PortsFor(descriptor, side);
    var tensorsLen := 8 + (headerEnd - lenEnd) + DataLen(infos);
    if !Contiguous(infos) then Err(BadTensors)
    else if tensorsLen >= U64_LIMIT then Err(LengthOverflow)
    else if tensorsLen != o.envelope.tensorLen then Err(LengthMismatch)
    else
      match Shells(infos)
      case None => Err(UnsupportedDtype)
      case Some(tensors) =>
        var schema := CheckSchema(ports, tensors);
        if schema.Invalid? then Err(SchemaError(schema.error))
        else
          match CheckedAdd(o.envelopeEnd + o.envelope.metadataLen, tensorsLen)
          case None => Err(LengthOverflow)
          case Some(full) => Ok(full)
  }
}
