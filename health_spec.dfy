/**
 * The four health-check messages of the private control service as
 * values: what `MarshalTo` writes for each (its encoding) and what
 * `Unmarshal` makes of a byte string (its decoding), with the round
 * trips and error cases that connect the two.
 */
module HealthSpec {
  import opened GoInts
  import opened Wrappers
  import opened WireErrors
  import opened Buffers
  import opened Varint
  import opened Wire

  /** `HealthCheckRequest_Body`: no fields of its own, only the unknown bytes it keeps. */
  datatype RequestBodyValue = RequestBodyValue(unrecognized: seq<uint8>)

  /** `HealthCheckResponse_Body`: the status (field 1, a varint) and the unknown bytes. */
  datatype ResponseBodyValue = ResponseBodyValue(status: uint64, unrecognized: seq<uint8>)

  /**
   * `HealthCheckRequest`: an optional body (field 1), an optional
   * signature (field 2) and the unknown bytes. The signature is kept as
   * its own encoding.
   */
  datatype RequestValue = RequestValue(body: Option<RequestBodyValue>, signature: Option<seq<uint8>>, unrecognized: seq<uint8>)

  /** `HealthCheckResponse`: the same layout with a response body. */
  datatype ResponseValue = ResponseValue(body: Option<ResponseBodyValue>, signature: Option<seq<uint8>>, unrecognized: seq<uint8>)

  const EmptyRequestBody := RequestBodyValue([])
  const EmptyResponseBody := ResponseBodyValue(0, [])
  const EmptyRequest := RequestValue(None, None, [])
  const EmptyResponse := ResponseValue(None, None, [])

  /** The keys the `MarshalTo` methods write: field 1 varint, field 1 bytes, field 2 bytes. */
  const StatusKey: uint8 := 0x08
  const BodyKey: uint8 := 0x0a
  const SignatureKey: uint8 := 0x12

  // ------------------------------------------------------------ encoding

  /** A length-delimited field: its key byte, the length as a varint, the bytes. */
  function EmbeddedField(key: uint8, payload: seq<uint8>): seq<uint8>
  {
    [key] + (VarintBytes(|payload|) + payload)
  }

  /** The status field, left out when the status is 0. */
  function StatusField(status: uint64): seq<uint8>
  {
    if status == 0 then [] else [StatusKey] + VarintBytes(status)
  }

  function EncodeRequestBody(b: RequestBodyValue): seq<uint8>
  {
    b.unrecognized
  }

  function EncodeResponseBody(b: ResponseBodyValue): seq<uint8>
  {
    StatusField(b.status) + b.unrecognized
  }

  /** Body, then signature, then the unknown bytes: the layout both outer messages share. */
  function Envelope(body: Option<seq<uint8>>, signature: Option<seq<uint8>>, unrecognized: seq<uint8>): seq<uint8>
  {
    (if body.Some? then EmbeddedField(BodyKey, body.value) else [])
    + (if signature.Some? then EmbeddedField(SignatureKey, signature.value) else [])
    + unrecognized
  }

  function EncodeRequest(m: RequestValue): seq<uint8>
  {
    Envelope(if m.body.Some? then Some(EncodeRequestBody(m.body.value)) else None, m.signature, m.unrecognized)
  }

  function EncodeResponse(m: ResponseValue): seq<uint8>
  {
    Envelope(if m.body.Some? then Some(EncodeResponseBody(m.body.value)) else None, m.signature, m.unrecognized)
  }

  // ------------------------------------------------------------ decoding

  function RequestBodyOrEmpty(b: Option<RequestBodyValue>): RequestBodyValue
  {
    if b.Some? then b.value else EmptyRequestBody
  }

  function ResponseBodyOrEmpty(b: Option<ResponseBodyValue>): ResponseBodyValue
  {
    if b.Some? then b.value else EmptyResponseBody
  }

  function BytesOrEmpty(s: Option<seq<uint8>>): seq<uint8>
  {
    if s.Some? then s.value else []
  }

  /**
   * One pass of the loop of `HealthCheckRequest_Body.Unmarshal` at index
   * i: every field is unknown and its bytes are appended. On success the
   * index where the next field starts and the updated message.
   */
  function RequestBodyStep(data: seq<uint8>, i: nat, acc: RequestBodyValue): (r: Result<(nat, RequestBodyValue), CodecError>)
    requires i < |data| <= MaxLen
    ensures r.Ok? ==> i < r.value.0 <= |data|
  {
    match ReadTag(data, i, "Body")
    case Err(e) => Err(e)
    case Ok(_) =>
      match Unknown(data, i)
      case Err(e) => Err(e)
      case Ok(end) => Ok((end, acc.(unrecognized := acc.unrecognized + data[i..end])))
  }

  /** `HealthCheckRequest_Body.Unmarshal` from index i into the message acc. */
  function DecodeRequestBody(data: seq<uint8>, i: nat, acc: RequestBodyValue): Result<RequestBodyValue, CodecError>
    requires i <= |data| <= MaxLen
    decreases |data| - i
  {
    if i == |data| then Ok(acc)
    else
      match RequestBodyStep(data, i, acc)
      case Err(e) => Err(e)
      case Ok(p) => DecodeRequestBody(data, p.0, p.1)
  }

  /**
   * One pass of the loop of `HealthCheckResponse_Body.Unmarshal`: field 1
   * must be a varint and replaces the status; other fields are appended
   * to the unknown bytes.
   */
  function ResponseBodyStep(data: seq<uint8>, i: nat, acc: ResponseBodyValue): (r: Result<(nat, ResponseBodyValue), CodecError>)
    requires i < |data| <= MaxLen
    ensures r.Ok? ==> i < r.value.0 <= |data|
  {
    match ReadTag(data, i, "Body")
    case Err(e) => Err(e)
    case Ok(t) =>
      if t.fieldNum == 1 then
        if t.wireType != 0 then Err(WrongWireType("Status", t.wireType))
        else
          match ReadVarint(data, t.next)
          case Err(e) => Err(e)
          case Ok(v) => Ok((v.next, acc.(status := v.value)))
      else
        match Unknown(data, i)
        case Err(e) => Err(e)
        case Ok(end) => Ok((end, acc.(unrecognized := acc.unrecognized + data[i..end])))
  }

  /** `HealthCheckResponse_Body.Unmarshal` from index i into acc. */
  function DecodeResponseBody(data: seq<uint8>, i: nat, acc: ResponseBodyValue): Result<ResponseBodyValue, CodecError>
    requires i <= |data| <= MaxLen
    decreases |data| - i
  {
    if i == |data| then Ok(acc)
    else
      match ResponseBodyStep(data, i, acc)
      case Err(e) => Err(e)
      case Ok(p) => DecodeResponseBody(data, p.0, p.1)
  }

  /**
   * One pass of the loop of `HealthCheckRequest.Unmarshal`: field 1 is
   * merged into the body (created empty when absent), field 2 into the
   * signature, both must be length-delimited; other fields are appended
   * to the unknown bytes.
   */
  function RequestStep(data: seq<uint8>, i: nat, acc: RequestValue): (r: Result<(nat, RequestValue), CodecError>)
    requires i < |data| <= MaxLen
    ensures r.Ok? ==> i < r.value.0 <= |data|
  {
    match ReadTag(data, i, "HealthCheckRequest")
    case Err(e) => Err(e)
    case Ok(t) =>
      if t.fieldNum == 1 then
        if t.wireType != 2 then Err(WrongWireType("Body", t.wireType))
        else
          match Embedded(data, t.next)
          case Err(e) => Err(e)
          case Ok(span) =>
            match DecodeRequestBody(data[span.start..span.end], 0, RequestBodyOrEmpty(acc.body))
            case Err(e) => Err(e)
            case Ok(b) => Ok((span.end, acc.(body := Some(b))))
      else if t.fieldNum == 2 then
        if t.wireType != 2 then Err(WrongWireType("Signature", t.wireType))
        else
          match Embedded(data, t.next)
          case Err(e) => Err(e)
          case Ok(span) => Ok((span.end, acc.(signature := Some(BytesOrEmpty(acc.signature) + data[span.start..span.end]))))
      else
        match Unknown(data, i)
        case Err(e) => Err(e)
        case Ok(end) => Ok((end, acc.(unrecognized := acc.unrecognized + data[i..end])))
  }

  /** `HealthCheckRequest.Unmarshal` from index i into acc. */
  function DecodeRequest(data: seq<uint8>, i: nat, acc: RequestValue): Result<RequestValue, CodecError>
    requires i <= |data| <= MaxLen
    decreases |data| - i
  {
    if i == |data| then Ok(acc)
    else
      match RequestStep(data, i, acc)
      case Err(e) => Err(e)
      case Ok(p) => DecodeRequest(data, p.0, p.1)
  }

  /** One pass of the loop of `HealthCheckResponse.Unmarshal`: as for the request, with a response body. */
  function ResponseStep(data: seq<uint8>, i: nat, acc: ResponseValue): (r: Result<(nat, ResponseValue), CodecError>)
    requires i < |data| <= MaxLen
    ensures r.Ok? ==> i < r.value.0 <= |data|
  {
    match ReadTag(data, i, "HealthCheckResponse")
    case Err(e) => Err(e)
    case Ok(t) =>
      if t.fieldNum == 1 then
        if t.wireType != 2 then Err(WrongWireType("Body", t.wireType))
        else
          match Embedded(data, t.next)
          case Err(e) => Err(e)
          case Ok(span) =>
            match DecodeResponseBody(data[span.start..span.end], 0, ResponseBodyOrEmpty(acc.body))
            case Err(e) => Err(e)
            case Ok(b) => Ok((span.end, acc.(body := Some(b))))
      else if t.fieldNum == 2 then
        if t.wireType != 2 then Err(WrongWireType("Signature", t.wireType))
        else
          match Embedded(data, t.next)
          case Err(e) => Err(e)
          case Ok(span) => Ok((span.end, acc.(signature := Some(BytesOrEmpty(acc.signature) + data[span.start..span.end]))))
      else
        match Unknown(data, i)
        case Err(e) => Err(e)
        case Ok(end) => Ok((end, acc.(unrecognized := acc.unrecognized + data[i..end])))
  }

  /** `HealthCheckResponse.Unmarshal` from index i into acc. */
  function DecodeResponse(data: seq<uint8>, i: nat, acc: ResponseValue): Result<ResponseValue, CodecError>
    requires i <= |data| <= MaxLen
    decreases |data| - i
  {
    if i == |data| then Ok(acc)
    else
      match ResponseStep(data, i, acc)
      case Err(e) => Err(e)
      case Ok(p) => DecodeResponse(data, p.0, p.1)
  }

  /** An envelope with a body is the body field followed by the envelope without it. */
  lemma EnvelopeWithBody(body: seq<uint8>, signature: Option<seq<uint8>>, unrecognized: seq<uint8>)
    ensures Envelope(Some(body), signature, unrecognized) == EmbeddedField(BodyKey, body) + Envelope(None, signature, unrecognized)
  {
    var b := EmbeddedField(BodyKey, body);
    var sig := if signature.Some? then EmbeddedField(SignatureKey, signature.value) else [];
    assert Envelope(None, signature, unrecognized) == sig + unrecognized;
    AppendAssoc(b, sig, unrecognized);
  }
}
