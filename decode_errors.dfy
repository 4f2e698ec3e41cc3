/**
 * The error paths of the four `Unmarshal` methods: what each refuses
 * and with which error, for malformed keys, wrong wire types, bad
 * lengths and unknown fields that cannot be skipped.
 */
module DecodeErrors {
  import opened GoInts
  import opened Wrappers
  import opened WireErrors
  import opened Buffers
  import opened Varint
  import opened Wire
  import opened HealthSpec

  // ------------------------------------------- HealthCheckRequest_Body

  /** A key or an unknown field that cannot be read stops `HealthCheckRequest_Body.Unmarshal` with that error. */
  lemma DecodeRequestBodyStepErrors(data: seq<uint8>, i: nat, acc: RequestBodyValue)
    requires i < |data| <= MaxLen
    ensures ReadTag(data, i, "Body").Err? ==> DecodeRequestBody(data, i, acc) == Err(ReadTag(data, i, "Body").error)
    ensures ReadTag(data, i, "Body").Ok? && Unknown(data, i).Err?
      ==> DecodeRequestBody(data, i, acc) == Err(Unknown(data, i).error)
  {
  }

  /** The malformed keys `HealthCheckRequest_Body.Unmarshal` refuses, each with the source's error. */
  lemma DecodeRequestBodyKeyErrors(data: seq<uint8>, i: nat, acc: RequestBodyValue, num: nat, wireType: nat)
    requires i < |data| <= MaxLen && ValidNum(num) && wireType < 8 && wireType != 4
    ensures At(data, i, VarintBytes(Key(num, 4))) ==> DecodeRequestBody(data, i, acc) == Err(EndGroupForNonGroup("Body"))
    ensures At(data, i, VarintBytes(wireType)) ==> DecodeRequestBody(data, i, acc) == Err(IllegalTag("Body", 0, wireType))
    ensures i + 10 <= |data| && (forall k | i <= k < i + 10 :: data[k] >= 0x80) ==> DecodeRequestBody(data, i, acc) == Err(IntOverflow)
    ensures |data| < i + 10 && (forall k | i <= k < |data| :: data[k] >= 0x80) ==> DecodeRequestBody(data, i, acc) == Err(UnexpectedEof)
  {
    KeyErrors(data, i, num, wireType, "Body");
    DecodeRequestBodyStepErrors(data, i, acc);
  }

  /**
   * An unknown field of wire type 6 or 7 is refused by `skipService`; a
   * fixed64 field cut short passes it but not the bound check after it.
   */
  lemma DecodeRequestBodyUnknownErrors(data: seq<uint8>, i: nat, acc: RequestBodyValue, num: nat, wireType: nat)
    requires i < |data| <= MaxLen && ValidNum(num)  // the body has no fields of its own
    ensures 6 <= wireType <= 7 && At(data, i, VarintBytes(Key(num, wireType))) ==> DecodeRequestBody(data, i, acc) == Err(IllegalWireType(wireType))
    ensures At(data, i, VarintBytes(Key(num, 1))) && |data| < i + |VarintBytes(Key(num, 1))| + 8 ==> DecodeRequestBody(data, i, acc) == Err(UnexpectedEof)
  {
    if 6 <= wireType <= 7 && At(data, i, VarintBytes(Key(num, wireType))) {
      ReadTagEncoded(data, i, num, wireType, "Body");
      AtDrop(data, i, i, VarintBytes(Key(num, wireType)));
      SkipFieldIllegal(data[i..], num, wireType);
      DecodeRequestBodyStepErrors(data, i, acc);
    }
    if At(data, i, VarintBytes(Key(num, 1))) && |data| < i + |VarintBytes(Key(num, 1))| + 8 {
      ReadTagEncoded(data, i, num, 1, "Body");
      UnknownTruncatedFixed64(data, i, num);
      DecodeRequestBodyStepErrors(data, i, acc);
    }
  }
  /**
   * An unknown length-delimited field whose length is negative as a Go
   * `int`, or whose end index reaches 2^63 (in `skipService` or in the
   * bound check after it), gives ErrInvalidLengthService.
   */
  lemma DecodeRequestBodyUnknownLengthErrors(data: seq<uint8>, i: nat, acc: RequestBodyValue, num: nat, len: uint64)
    requires |data| <= MaxLen && ValidNum(num)
    requires At(data, i, VarintBytes(Key(num, 2)) + VarintBytes(len))
    ensures i < |data|
    ensures TWO_63 <= len ==> DecodeRequestBody(data, i, acc) == Err(InvalidLength)
    ensures TWO_63 <= i + |VarintBytes(Key(num, 2))| + |VarintBytes(len)| + len ==> DecodeRequestBody(data, i, acc) == Err(InvalidLength)
  {
    AtSplit(data, i, VarintBytes(Key(num, 2)), VarintBytes(len));
    ReadTagEncoded(data, i, num, 2, "Body");
    UnknownLengthErrors(data, i, num, len);
    DecodeRequestBodyStepErrors(data, i, acc);
  }


  // ------------------------------------------ HealthCheckResponse_Body

  /** A key or an unknown field that cannot be read stops `HealthCheckResponse_Body.Unmarshal` with that error. */
  lemma DecodeResponseBodyStepErrors(data: seq<uint8>, i: nat, acc: ResponseBodyValue)
    requires i < |data| <= MaxLen
    ensures ReadTag(data, i, "Body").Err? ==> DecodeResponseBody(data, i, acc) == Err(ReadTag(data, i, "Body").error)
    ensures ReadTag(data, i, "Body").Ok? && ReadTag(data, i, "Body").value.fieldNum !in {1} && Unknown(data, i).Err?
      ==> DecodeResponseBody(data, i, acc) == Err(Unknown(data, i).error)
  {
  }

  /** The malformed keys `HealthCheckResponse_Body.Unmarshal` refuses, each with the source's error. */
  lemma DecodeResponseBodyKeyErrors(data: seq<uint8>, i: nat, acc: ResponseBodyValue, num: nat, wireType: nat)
    requires i < |data| <= MaxLen && ValidNum(num) && wireType < 8 && wireType != 4
    ensures At(data, i, VarintBytes(Key(num, 4))) ==> DecodeResponseBody(data, i, acc) == Err(EndGroupForNonGroup("Body"))
    ensures At(data, i, VarintBytes(wireType)) ==> DecodeResponseBody(data, i, acc) == Err(IllegalTag("Body", 0, wireType))
    ensures i + 10 <= |data| && (forall k | i <= k < i + 10 :: data[k] >= 0x80) ==> DecodeResponseBody(data, i, acc) == Err(IntOverflow)
    ensures |data| < i + 10 && (forall k | i <= k < |data| :: data[k] >= 0x80) ==> DecodeResponseBody(data, i, acc) == Err(UnexpectedEof)
  {
    KeyErrors(data, i, num, wireType, "Body");
    DecodeResponseBodyStepErrors(data, i, acc);
  }

  /**
   * An unknown field of wire type 6 or 7 is refused by `skipService`; a
   * fixed64 field cut short passes it but not the bound check after it.
   */
  lemma DecodeResponseBodyUnknownErrors(data: seq<uint8>, i: nat, acc: ResponseBodyValue, num: nat, wireType: nat)
    requires i < |data| <= MaxLen && ValidNum(num) && num !in {1}
    ensures 6 <= wireType <= 7 && At(data, i, VarintBytes(Key(num, wireType))) ==> DecodeResponseBody(data, i, acc) == Err(IllegalWireType(wireType))
    ensures At(data, i, VarintBytes(Key(num, 1))) && |data| < i + |VarintBytes(Key(num, 1))| + 8 ==> DecodeResponseBody(data, i, acc) == Err(UnexpectedEof)
  {
    if 6 <= wireType <= 7 && At(data, i, VarintBytes(Key(num, wireType))) {
      ReadTagEncoded(data, i, num, wireType, "Body");
      AtDrop(data, i, i, VarintBytes(Key(num, wireType)));
      SkipFieldIllegal(data[i..], num, wireType);
      DecodeResponseBodyStepErrors(data, i, acc);
    }
    if At(data, i, VarintBytes(Key(num, 1))) && |data| < i + |VarintBytes(Key(num, 1))| + 8 {
      ReadTagEncoded(data, i, num, 1, "Body");
      UnknownTruncatedFixed64(data, i, num);
      DecodeResponseBodyStepErrors(data, i, acc);
    }
  }
  /**
   * An unknown length-delimited field whose length is negative as a Go
   * `int`, or whose end index reaches 2^63 (in `skipService` or in the
   * bound check after it), gives ErrInvalidLengthService.
   */
  lemma DecodeResponseBodyUnknownLengthErrors(data: seq<uint8>, i: nat, acc: ResponseBodyValue, num: nat, len: uint64)
    requires |data| <= MaxLen && ValidNum(num) && num !in {1}
    requires At(data, i, VarintBytes(Key(num, 2)) + VarintBytes(len))
    ensures i < |data|
    ensures TWO_63 <= len ==> DecodeResponseBody(data, i, acc) == Err(InvalidLength)
    ensures TWO_63 <= i + |VarintBytes(Key(num, 2))| + |VarintBytes(len)| + len ==> DecodeResponseBody(data, i, acc) == Err(InvalidLength)
  {
    AtSplit(data, i, VarintBytes(Key(num, 2)), VarintBytes(len));
    ReadTagEncoded(data, i, num, 2, "Body");
    UnknownLengthErrors(data, i, num, len);
    DecodeResponseBodyStepErrors(data, i, acc);
  }


  /** The status must be a varint: any other wire type is refused. */
  lemma StatusWireTypeError(data: seq<uint8>, i: nat, acc: ResponseBodyValue, wireType: nat)
    requires i < |data| <= MaxLen && 0 < wireType < 8 && wireType != 4
    ensures At(data, i, VarintBytes(Key(1, wireType))) ==> DecodeResponseBody(data, i, acc) == Err(WrongWireType("Status", wireType))
  {
    if At(data, i, VarintBytes(Key(1, wireType))) {
      ReadTagEncoded(data, i, 1, wireType, "Body");
    }
  }

  // ------------------------------------------------ HealthCheckRequest

  /** A key or an unknown field that cannot be read stops `HealthCheckRequest.Unmarshal` with that error. */
  lemma DecodeRequestStepErrors(data: seq<uint8>, i: nat, acc: RequestValue)
    requires i < |data| <= MaxLen
    ensures ReadTag(data, i, "HealthCheckRequest").Err? ==> DecodeRequest(data, i, acc) == Err(ReadTag(data, i, "HealthCheckRequest").error)
    ensures ReadTag(data, i, "HealthCheckRequest").Ok? && ReadTag(data, i, "HealthCheckRequest").value.fieldNum !in {1, 2} && Unknown(data, i).Err?
      ==> DecodeRequest(data, i, acc) == Err(Unknown(data, i).error)
  {
  }

  /** The malformed keys `HealthCheckRequest.Unmarshal` refuses, each with the source's error. */
  lemma DecodeRequestKeyErrors(data: seq<uint8>, i: nat, acc: RequestValue, num: nat, wireType: nat)
    requires i < |data| <= MaxLen && ValidNum(num) && wireType < 8 && wireType != 4
    ensures At(data, i, VarintBytes(Key(num, 4))) ==> DecodeRequest(data, i, acc) == Err(EndGroupForNonGroup("HealthCheckRequest"))
    ensures At(data, i, VarintBytes(wireType)) ==> DecodeRequest(data, i, acc) == Err(IllegalTag("HealthCheckRequest", 0, wireType))
    ensures i + 10 <= |data| && (forall k | i <= k < i + 10 :: data[k] >= 0x80) ==> DecodeRequest(data, i, acc) == Err(IntOverflow)
    ensures |data| < i + 10 && (forall k | i <= k < |data| :: data[k] >= 0x80) ==> DecodeRequest(data, i, acc) == Err(UnexpectedEof)
  {
    KeyErrors(data, i, num, wireType, "HealthCheckRequest");
    DecodeRequestStepErrors(data, i, acc);
  }

  /**
   * An unknown field of wire type 6 or 7 is refused by `skipService`; a
   * fixed64 field cut short passes it but not the bound check after it.
   */
  lemma DecodeRequestUnknownErrors(data: seq<uint8>, i: nat, acc: RequestValue, num: nat, wireType: nat)
    requires i < |data| <= MaxLen && ValidNum(num) && num !in {1, 2}
    ensures 6 <= wireType <= 7 && At(data, i, VarintBytes(Key(num, wireType))) ==> DecodeRequest(data, i, acc) == Err(IllegalWireType(wireType))
    ensures At(data, i, VarintBytes(Key(num, 1))) && |data| < i + |VarintBytes(Key(num, 1))| + 8 ==> DecodeRequest(data, i, acc) == Err(UnexpectedEof)
  {
    if 6 <= wireType <= 7 && At(data, i, VarintBytes(Key(num, wireType))) {
      ReadTagEncoded(data, i, num, wireType, "HealthCheckRequest");
      AtDrop(data, i, i, VarintBytes(Key(num, wireType)));
      SkipFieldIllegal(data[i..], num, wireType);
      DecodeRequestStepErrors(data, i, acc);
    }
    if At(data, i, VarintBytes(Key(num, 1))) && |data| < i + |VarintBytes(Key(num, 1))| + 8 {
      ReadTagEncoded(data, i, num, 1, "HealthCheckRequest");
      UnknownTruncatedFixed64(data, i, num);
      DecodeRequestStepErrors(data, i, acc);
    }
  }
  /**
   * An unknown length-delimited field whose length is negative as a Go
   * `int`, or whose end index reaches 2^63 (in `skipService` or in the
   * bound check after it), gives ErrInvalidLengthService.
   */
  lemma DecodeRequestUnknownLengthErrors(data: seq<uint8>, i: nat, acc: RequestValue, num: nat, len: uint64)
    requires |data| <= MaxLen && ValidNum(num) && num !in {1, 2}
    requires At(data, i, VarintBytes(Key(num, 2)) + VarintBytes(len))
    ensures i < |data|
    ensures TWO_63 <= len ==> DecodeRequest(data, i, acc) == Err(InvalidLength)
    ensures TWO_63 <= i + |VarintBytes(Key(num, 2))| + |VarintBytes(len)| + len ==> DecodeRequest(data, i, acc) == Err(InvalidLength)
  {
    AtSplit(data, i, VarintBytes(Key(num, 2)), VarintBytes(len));
    ReadTagEncoded(data, i, num, 2, "HealthCheckRequest");
    UnknownLengthErrors(data, i, num, len);
    DecodeRequestStepErrors(data, i, acc);
  }


  /** Fields 1 and 2 must be length-delimited: any other wire type is refused, naming the field. */
  lemma DecodeRequestWireTypeErrors(data: seq<uint8>, i: nat, acc: RequestValue, wireType: nat)
    requires i < |data| <= MaxLen && wireType < 8 && wireType != 4 && wireType != 2
    ensures At(data, i, VarintBytes(Key(1, wireType))) ==> DecodeRequest(data, i, acc) == Err(WrongWireType("Body", wireType))
    ensures At(data, i, VarintBytes(Key(2, wireType))) ==> DecodeRequest(data, i, acc) == Err(WrongWireType("Signature", wireType))
  {
    if At(data, i, VarintBytes(Key(1, wireType))) {
      ReadTagEncoded(data, i, 1, wireType, "HealthCheckRequest");
    }
    if At(data, i, VarintBytes(Key(2, wireType))) {
      ReadTagEncoded(data, i, 2, wireType, "HealthCheckRequest");
    }
  }

  /**
   * The length of a body or signature field: 2^63 or more is negative
   * as a Go `int`, so is an end index of 2^63 or more, and a length
   * running past the input leaves it short.
   */
  lemma DecodeRequestLengthErrors(data: seq<uint8>, i: nat, acc: RequestValue, key: uint8, len: uint64)
    requires |data| <= MaxLen && (key == BodyKey || key == SignatureKey) && At(data, i, [key] + VarintBytes(len))
    ensures i < |data|
    ensures TWO_63 <= len ==> DecodeRequest(data, i, acc) == Err(InvalidLength)
    ensures len < TWO_63 && TWO_63 <= i + 1 + |VarintBytes(len)| + len ==> DecodeRequest(data, i, acc) == Err(InvalidLength)
    ensures |data| < i + 1 + |VarintBytes(len)| + len < TWO_63 ==> DecodeRequest(data, i, acc) == Err(UnexpectedEof)
  {
    var num := if key == BodyKey then 1 else 2;
    assert VarintBytes(Key(num, 2)) == [key];
    AtSplit(data, i, [key], VarintBytes(len));
    ReadTagEncoded(data, i, num, 2, "HealthCheckRequest");
    assert i + |VarintBytes(Key(num, 2))| == i + 1;
    if TWO_63 <= len {
      EmbeddedNegative(data, i + 1, len);
      DecodeRequestEmbeddedError(data, i, acc, num, i + 1);
    }
    if len < TWO_63 && TWO_63 <= i + 1 + |VarintBytes(len)| + len {
      EmbeddedEndWraps(data, i + 1, len);
      DecodeRequestEmbeddedError(data, i, acc, num, i + 1);
    }
    if |data| < i + 1 + |VarintBytes(len)| + len < TWO_63 {
      EmbeddedTruncated(data, i + 1, len);
      DecodeRequestEmbeddedError(data, i, acc, num, i + 1);
    }
  }

  lemma DecodeRequestEmbeddedError(data: seq<uint8>, i: nat, acc: RequestValue, num: nat, n: nat)
    requires i < |data| <= MaxLen && (num == 1 || num == 2)
    requires ReadTag(data, i, "HealthCheckRequest") == Ok(Tag(Key(num, 2), num, 2, n)) && Embedded(data, n).Err?
    ensures DecodeRequest(data, i, acc) == Err(Embedded(data, n).error)
  {
  }

  // ----------------------------------------------- HealthCheckResponse

  /** A key or an unknown field that cannot be read stops `HealthCheckResponse.Unmarshal` with that error. */
  lemma DecodeResponseStepErrors(data: seq<uint8>, i: nat, acc: ResponseValue)
    requires i < |data| <= MaxLen
    ensures ReadTag(data, i, "HealthCheckResponse").Err? ==> DecodeResponse(data, i, acc) == Err(ReadTag(data, i, "HealthCheckResponse").error)
    ensures ReadTag(data, i, "HealthCheckResponse").Ok? && ReadTag(data, i, "HealthCheckResponse").value.fieldNum !in {1, 2} && Unknown(data, i).Err?
      ==> DecodeResponse(data, i, acc) == Err(Unknown(data, i).error)
  {
  }

  /** The malformed keys `HealthCheckResponse.Unmarshal` refuses, each with the source's error. */
  lemma DecodeResponseKeyErrors(data: seq<uint8>, i: nat, acc: ResponseValue, num: nat, wireType: nat)
    requires i < |data| <= MaxLen && ValidNum(num) && wireType < 8 && wireType != 4
    ensures At(data, i, VarintBytes(Key(num, 4))) ==> DecodeResponse(data, i, acc) == Err(EndGroupForNonGroup("HealthCheckResponse"))
    ensures At(data, i, VarintBytes(wireType)) ==> DecodeResponse(data, i, acc) == Err(IllegalTag("HealthCheckResponse", 0, wireType))
    ensures i + 10 <= |data| && (forall k | i <= k < i + 10 :: data[k] >= 0x80) ==> DecodeResponse(data, i, acc) == Err(IntOverflow)
    ensures |data| < i + 10 && (forall k | i <= k < |data| :: data[k] >= 0x80) ==> DecodeResponse(data, i, acc) == Err(UnexpectedEof)
  {
    KeyErrors(data, i, num, wireType, "HealthCheckResponse");
    DecodeResponseStepErrors(data, i, acc);
  }

  /**
   * An unknown field of wire type 6 or 7 is refused by `skipService`; a
   * fixed64 field cut short passes it but not the bound check after it.
   */
  lemma DecodeResponseUnknownErrors(data: seq<uint8>, i: nat, acc: ResponseValue, num: nat, wireType: nat)
    requires i < |data| <= MaxLen && ValidNum(num) && num !in {1, 2}
    ensures 6 <= wireType <= 7 && At(data, i, VarintBytes(Key(num, wireType))) ==> DecodeResponse(data, i, acc) == Err(IllegalWireType(wireType))
    ensures At(data, i, VarintBytes(Key(num, 1))) && |data| < i + |VarintBytes(Key(num, 1))| + 8 ==> DecodeResponse(data, i, acc) == Err(UnexpectedEof)
  {
    if 6 <= wireType <= 7 && At(data, i, VarintBytes(Key(num, wireType))) {
      ReadTagEncoded(data, i, num, wireType, "HealthCheckResponse");
      AtDrop(data, i, i, VarintBytes(Key(num, wireType)));
      SkipFieldIllegal(data[i..], num, wireType);
      DecodeResponseStepErrors(data, i, acc);
    }
    if At(data, i, VarintBytes(Key(num, 1))) && |data| < i + |VarintBytes(Key(num, 1))| + 8 {
      ReadTagEncoded(data, i, num, 1, "HealthCheckResponse");
      UnknownTruncatedFixed64(data, i, num);
      DecodeResponseStepErrors(data, i, acc);
    }
  }
  /**
   * An unknown length-delimited field whose length is negative as a Go
   * `int`, or whose end index reaches 2^63 (in `skipService` or in the
   * bound check after it), gives ErrInvalidLengthService.
   */
  lemma DecodeResponseUnknownLengthErrors(data: seq<uint8>, i: nat, acc: ResponseValue, num: nat, len: uint64)
    requires |data| <= MaxLen && ValidNum(num) && num !in {1, 2}
    requires At(data, i, VarintBytes(Key(num, 2)) + VarintBytes(len))
    ensures i < |data|
    ensures TWO_63 <= len ==> DecodeResponse(data, i, acc) == Err(InvalidLength)
    ensures TWO_63 <= i + |VarintBytes(Key(num, 2))| + |VarintBytes(len)| + len ==> DecodeResponse(data, i, acc) == Err(InvalidLength)
  {
    AtSplit(data, i, VarintBytes(Key(num, 2)), VarintBytes(len));
    ReadTagEncoded(data, i, num, 2, "HealthCheckResponse");
    UnknownLengthErrors(data, i, num, len);
    DecodeResponseStepErrors(data, i, acc);
  }


  /** Fields 1 and 2 must be length-delimited: any other wire type is refused, naming the field. */
  lemma DecodeResponseWireTypeErrors(data: seq<uint8>, i: nat, acc: ResponseValue, wireType: nat)
    requires i < |data| <= MaxLen && wireType < 8 && wireType != 4 && wireType != 2
    ensures At(data, i, VarintBytes(Key(1, wireType))) ==> DecodeResponse(data, i, acc) == Err(WrongWireType("Body", wireType))
    ensures At(data, i, VarintBytes(Key(2, wireType))) ==> DecodeResponse(data, i, acc) == Err(WrongWireType("Signature", wireType))
  {
    if At(data, i, VarintBytes(Key(1, wireType))) {
      ReadTagEncoded(data, i, 1, wireType, "HealthCheckResponse");
    }
    if At(data, i, VarintBytes(Key(2, wireType))) {
      ReadTagEncoded(data, i, 2, wireType, "HealthCheckResponse");
    }
  }

  /**
   * The length of a body or signature field: 2^63 or more is negative
   * as a Go `int`, so is an end index of 2^63 or more, and a length
   * running past the input leaves it short.
   */
  lemma DecodeResponseLengthErrors(data: seq<uint8>, i: nat, acc: ResponseValue, key: uint8, len: uint64)
    requires |data| <= MaxLen && (key == BodyKey || key == SignatureKey) && At(data, i, [key] + VarintBytes(len))
    ensures i < |data|
    ensures TWO_63 <= len ==> DecodeResponse(data, i, acc) == Err(InvalidLength)
    ensures len < TWO_63 && TWO_63 <= i + 1 + |VarintBytes(len)| + len ==> DecodeResponse(data, i, acc) == Err(InvalidLength)
    ensures |data| < i + 1 + |VarintBytes(len)| + len < TWO_63 ==> DecodeResponse(data, i, acc) == Err(UnexpectedEof)
  {
    var num := if key == BodyKey then 1 else 2;
    assert VarintBytes(Key(num, 2)) == [key];
    AtSplit(data, i, [key], VarintBytes(len));
    ReadTagEncoded(data, i, num, 2, "HealthCheckResponse");
    assert i + |VarintBytes(Key(num, 2))| == i + 1;
    if TWO_63 <= len {
      EmbeddedNegative(data, i + 1, len);
      DecodeResponseEmbeddedError(data, i, acc, num, i + 1);
    }
    if len < TWO_63 && TWO_63 <= i + 1 + |VarintBytes(len)| + len {
      EmbeddedEndWraps(data, i + 1, len);
      DecodeResponseEmbeddedError(data, i, acc, num, i + 1);
    }
    if |data| < i + 1 + |VarintBytes(len)| + len < TWO_63 {
      EmbeddedTruncated(data, i + 1, len);
      DecodeResponseEmbeddedError(data, i, acc, num, i + 1);
    }
  }

  lemma DecodeResponseEmbeddedError(data: seq<uint8>, i: nat, acc: ResponseValue, num: nat, n: nat)
    requires i < |data| <= MaxLen && (num == 1 || num == 2)
    requires ReadTag(data, i, "HealthCheckResponse") == Ok(Tag(Key(num, 2), num, 2, n)) && Embedded(data, n).Err?
    ensures DecodeResponse(data, i, acc) == Err(Embedded(data, n).error)
  {
  }
}
