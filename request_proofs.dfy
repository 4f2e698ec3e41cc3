/**
 * The same facts for `HealthCheckRequest` and its body: the body keeps
 * every field as unknown bytes, the outer message merges its body and
 * signature fields, and encoding then decoding gives the message back.
 */
module RequestProofs {
  import opened GoInts
  import opened Wrappers
  import opened WireErrors
  import opened Buffers
  import opened Varint
  import opened Wire
  import opened HealthSpec

  // ------------------------------------------- HealthCheckRequest_Body

  lemma RequestBodyThen(data: seq<uint8>, i: nat, acc: RequestBodyValue, k: nat, next: RequestBodyValue, r: Result<RequestBodyValue, CodecError>)
    requires i < |data| <= MaxLen && RequestBodyStep(data, i, acc) == Ok((k, next))
    requires DecodeRequestBody(data, k, next) == r
    ensures DecodeRequestBody(data, i, acc) == r
  {
  }

  /** Every field of the request body is skipped and its bytes appended to the unknown bytes. */
  lemma RequestBodySkip(data: seq<uint8>, i: nat, acc: RequestBodyValue, k: nat)
    requires i < |data| <= MaxLen && ReadTag(data, i, "Body").Ok? && Unknown(data, i) == Ok(k)
    ensures RequestBodyStep(data, i, acc) == Ok((k, acc.(unrecognized := acc.unrecognized + data[i..k])))
  {
  }

  lemma {:induction false} RequestBodyRun(data: seq<uint8>, i: nat, j: nat, acc: RequestBodyValue, final: RequestBodyValue, r: Result<RequestBodyValue, CodecError>)
    requires i <= j <= |data| <= MaxLen && UnknownRun(data, i, j, "Body", {})
    requires final == acc.(unrecognized := acc.unrecognized + data[i..j])
    requires DecodeRequestBody(data, j, final) == r
    ensures DecodeRequestBody(data, i, acc) == r
    decreases j - i
  {
    if i == j {
      assert acc.unrecognized + data[i..j] == acc.unrecognized;
    } else {
      var k := Unknown(data, i).value;
      var next := acc.(unrecognized := acc.unrecognized + data[i..k]);
      SliceJoin(data, i, k, j);
      AppendAssoc(acc.unrecognized, data[i..k], data[k..j]);
      RequestBodyRun(data, k, j, next, final, r);
      RequestBodySkip(data, i, acc, k);
      RequestBodyThen(data, i, acc, k, next, r);
    }
  }

  /** Round trip: a request body made of encoded fields decodes back into itself. */
  lemma RequestBodyRoundTrip(b: RequestBodyValue, fs: seq<UnknownField>)
    requires b.unrecognized == EncodeFields(fs) && ValidFields(fs)
    requires |EncodeRequestBody(b)| <= MaxLen
    ensures DecodeRequestBody(EncodeRequestBody(b), 0, EmptyRequestBody) == Ok(b)
  {
    var data := EncodeRequestBody(b);
    AtFront(data, []);
    assert data + [] == data;
    assert Foreign(fs, {});
    EncodedFieldsRun(data, 0, fs, |data|, "Body", {});
    assert data[0..|data|] == data;
    assert EmptyRequestBody.unrecognized + data == data;
    RequestBodyRun(data, 0, |data|, EmptyRequestBody, b, Ok(b));
  }

  // ------------------------------------------------ HealthCheckRequest

  lemma RequestThen(data: seq<uint8>, i: nat, acc: RequestValue, k: nat, next: RequestValue, r: Result<RequestValue, CodecError>)
    requires i < |data| <= MaxLen && RequestStep(data, i, acc) == Ok((k, next))
    requires DecodeRequest(data, k, next) == r
    ensures DecodeRequest(data, i, acc) == r
  {
  }

  lemma RequestSkip(data: seq<uint8>, i: nat, acc: RequestValue, k: nat)
    requires i < |data| <= MaxLen
    requires ReadTag(data, i, "HealthCheckRequest").Ok? && ReadTag(data, i, "HealthCheckRequest").value.fieldNum !in {1, 2}
    requires Unknown(data, i) == Ok(k)
    ensures RequestStep(data, i, acc) == Ok((k, acc.(unrecognized := acc.unrecognized + data[i..k])))
  {
  }

  lemma {:induction false} RequestRun(data: seq<uint8>, i: nat, j: nat, acc: RequestValue, final: RequestValue, r: Result<RequestValue, CodecError>)
    requires i <= j <= |data| <= MaxLen && UnknownRun(data, i, j, "HealthCheckRequest", {1, 2})
    requires final == acc.(unrecognized := acc.unrecognized + data[i..j])
    requires DecodeRequest(data, j, final) == r
    ensures DecodeRequest(data, i, acc) == r
    decreases j - i
  {
    if i == j {
      assert acc.unrecognized + data[i..j] == acc.unrecognized;
    } else {
      var k := Unknown(data, i).value;
      var next := acc.(unrecognized := acc.unrecognized + data[i..k]);
      SliceJoin(data, i, k, j);
      AppendAssoc(acc.unrecognized, data[i..k], data[k..j]);
      RequestRun(data, k, j, next, final, r);
      RequestSkip(data, i, acc, k);
      RequestThen(data, i, acc, k, next, r);
    }
  }

  lemma RequestFields(data: seq<uint8>, k: nat, fs: seq<UnknownField>, acc: RequestValue, final: RequestValue)
    requires |data| <= MaxLen && ValidFields(fs) && Foreign(fs, {1, 2}) && At(data, k, EncodeFields(fs))
    requires k + |EncodeFields(fs)| == |data| && final == acc.(unrecognized := acc.unrecognized + EncodeFields(fs))
    ensures DecodeRequest(data, k, acc) == Ok(final)
  {
    AtSlice(data, k, EncodeFields(fs));
    EncodedFieldsRun(data, k, fs, |data|, "HealthCheckRequest", {1, 2});
    assert data[k..|data|] == EncodeFields(fs);
    RequestRun(data, k, |data|, acc, final, Ok(final));
  }

  /**
   * A body field is decoded on its own bytes, starting from the body
   * already there (or an empty one), and the result becomes the body.
   */
  lemma RequestBodyField(data: seq<uint8>, i: nat, acc: RequestValue, p: seq<uint8>, b: RequestBodyValue, k: nat)
    requires |data| <= MaxLen && At(data, i, EmbeddedField(BodyKey, p))
    requires DecodeRequestBody(p, 0, RequestBodyOrEmpty(acc.body)) == Ok(b)
    requires k == i + 1 + |VarintBytes(|p|)| + |p|
    ensures i < |data| && RequestStep(data, i, acc) == Ok((k, acc.(body := Some(b))))
  {
    var n := i + 1;
    var start := n + |VarintBytes(|p|)|;
    KeyedEmbeddedAt(data, i, BodyKey, 1, p, "HealthCheckRequest", n, start, k);
    RequestBodyStepOk(data, i, acc, n, start, k, b);
  }

  lemma RequestBodyStepOk(data: seq<uint8>, i: nat, acc: RequestValue, n: nat, start: nat, k: nat, b: RequestBodyValue)
    requires i < |data| <= MaxLen && ReadTag(data, i, "HealthCheckRequest") == Ok(Tag(Key(1, 2), 1, 2, n))
    requires Embedded(data, n) == Ok(Span(start, k)) && start <= k <= |data|
    requires DecodeRequestBody(data[start..k], 0, RequestBodyOrEmpty(acc.body)) == Ok(b)
    ensures RequestStep(data, i, acc) == Ok((k, acc.(body := Some(b))))
  {
  }

  /** A signature field appends its bytes to the signature already there. */
  lemma RequestSignatureField(data: seq<uint8>, i: nat, acc: RequestValue, p: seq<uint8>, k: nat)
    requires |data| <= MaxLen && At(data, i, EmbeddedField(SignatureKey, p))
    requires k == i + 1 + |VarintBytes(|p|)| + |p|
    ensures i < |data| && RequestStep(data, i, acc) == Ok((k, acc.(signature := Some(BytesOrEmpty(acc.signature) + p))))
  {
    var n := i + 1;
    var start := n + |VarintBytes(|p|)|;
    KeyedEmbeddedAt(data, i, SignatureKey, 2, p, "HealthCheckRequest", n, start, k);
    RequestSignatureStepOk(data, i, acc, n, start, k);
  }

  lemma RequestSignatureStepOk(data: seq<uint8>, i: nat, acc: RequestValue, n: nat, start: nat, k: nat)
    requires i < |data| <= MaxLen && ReadTag(data, i, "HealthCheckRequest") == Ok(Tag(Key(2, 2), 2, 2, n))
    requires Embedded(data, n) == Ok(Span(start, k)) && start <= k <= |data|
    ensures RequestStep(data, i, acc) == Ok((k, acc.(signature := Some(BytesOrEmpty(acc.signature) + data[start..k]))))
  {
  }

  /** A signature field followed by unknown fields, decoded after the body. */
  lemma RequestSignatureThenFields(data: seq<uint8>, k: nat, body: Option<RequestBodyValue>, p: seq<uint8>, fs: seq<UnknownField>, j: nat)
    requires |data| <= MaxLen && ValidFields(fs) && Foreign(fs, {1, 2})
    requires At(data, k, EmbeddedField(SignatureKey, p) + EncodeFields(fs))
    requires j == k + |EmbeddedField(SignatureKey, p)| && j + |EncodeFields(fs)| == |data|
    ensures DecodeRequest(data, k, RequestValue(body, None, [])) == Ok(RequestValue(body, Some(p), EncodeFields(fs)))
  {
    AtSplit(data, k, EmbeddedField(SignatureKey, p), EncodeFields(fs));
    var before := RequestValue(body, None, []);
    var acc := RequestValue(body, Some(p), []);
    var final := RequestValue(body, Some(p), EncodeFields(fs));
    assert acc.unrecognized + EncodeFields(fs) == EncodeFields(fs);
    RequestFields(data, j, fs, acc, final);
    assert j == k + 1 + |VarintBytes(|p|)| + |p|;
    RequestSignatureField(data, k, before, p, j);
    assert BytesOrEmpty(before.signature) == [];
    assert BytesOrEmpty(before.signature) + p == p;
    assert before.(signature := Some(BytesOrEmpty(before.signature) + p)) == acc;
    RequestThen(data, k, before, j, acc, Ok(final));
  }

  /** The signature and the unknown fields after the body decode into the message. */
  lemma RequestAfterBody(data: seq<uint8>, k: nat, m: RequestValue, fs: seq<UnknownField>)
    requires |data| <= MaxLen && m.unrecognized == EncodeFields(fs) && ValidFields(fs) && Foreign(fs, {1, 2})
    requires At(data, k, Envelope(None, m.signature, m.unrecognized)) && k + |Envelope(None, m.signature, m.unrecognized)| == |data|
    ensures DecodeRequest(data, k, RequestValue(m.body, None, [])) == Ok(m)
  {
    if m.signature.Some? {
      var p := m.signature.value;
      var sig := EmbeddedField(SignatureKey, p);
      assert Envelope(None, m.signature, m.unrecognized) == sig + EncodeFields(fs);
      RequestSignatureThenFields(data, k, m.body, p, fs, k + |sig|);
      assert RequestValue(m.body, Some(p), EncodeFields(fs)) == m;
    } else {
      assert Envelope(None, m.signature, m.unrecognized) == EncodeFields(fs);
      var acc := RequestValue(m.body, None, []);
      assert acc.unrecognized + EncodeFields(fs) == EncodeFields(fs);
      RequestFields(data, k, fs, acc, m);
    }
  }

  /** A body field at the start, decoded into an empty request, then what follows it. */
  lemma RequestBodyFirst(data: seq<uint8>, p: seq<uint8>, b: RequestBodyValue, j: nat, r: Result<RequestValue, CodecError>)
    requires |data| <= MaxLen && At(data, 0, EmbeddedField(BodyKey, p)) && j == |EmbeddedField(BodyKey, p)|
    requires DecodeRequestBody(p, 0, EmptyRequestBody) == Ok(b)
    requires DecodeRequest(data, j, RequestValue(Some(b), None, [])) == r
    ensures DecodeRequest(data, 0, EmptyRequest) == r
  {
    assert j == 0 + 1 + |VarintBytes(|p|)| + |p|;
    RequestBodyField(data, 0, EmptyRequest, p, b, j);
    assert EmptyRequest.(body := Some(b)) == RequestValue(Some(b), None, []);
    RequestThen(data, 0, EmptyRequest, j, RequestValue(Some(b), None, []), r);
  }

  /** A request with a body: the body field, then what follows it. */
  lemma RequestBodyThenRest(data: seq<uint8>, m: RequestValue, p: seq<uint8>, bodyFields: seq<UnknownField>, fs: seq<UnknownField>, j: nat)
    requires m.body.Some? && p == EncodeRequestBody(m.body.value)
    requires m.body.value.unrecognized == EncodeFields(bodyFields) && ValidFields(bodyFields)
    requires m.unrecognized == EncodeFields(fs) && ValidFields(fs) && Foreign(fs, {1, 2})
    requires |data| <= MaxLen && At(data, 0, EmbeddedField(BodyKey, p) + Envelope(None, m.signature, m.unrecognized))
    requires j == |EmbeddedField(BodyKey, p)| && j + |Envelope(None, m.signature, m.unrecognized)| == |data|
    ensures DecodeRequest(data, 0, EmptyRequest) == Ok(m)
  {
    AtSplit(data, 0, EmbeddedField(BodyKey, p), Envelope(None, m.signature, m.unrecognized));
    RequestAfterBody(data, j, m, fs);
    RequestBodyRoundTrip(m.body.value, bodyFields);
    assert RequestValue(m.body, None, []) == RequestValue(Some(m.body.value), None, []);
    RequestBodyFirst(data, p, m.body.value, j, Ok(m));
  }

  lemma RequestWithBodyRoundTrip(m: RequestValue, bodyFields: seq<UnknownField>, fs: seq<UnknownField>)
    requires m.body.Some? && m.body.value.unrecognized == EncodeFields(bodyFields) && ValidFields(bodyFields)
    requires m.unrecognized == EncodeFields(fs) && ValidFields(fs) && Foreign(fs, {1, 2})
    requires |EncodeRequest(m)| <= MaxLen
    ensures DecodeRequest(EncodeRequest(m), 0, EmptyRequest) == Ok(m)
  {
    var data := EncodeRequest(m);
    var rest := Envelope(None, m.signature, m.unrecognized);
    var p := EncodeRequestBody(m.body.value);
    var b := EmbeddedField(BodyKey, p);
    assert data == Envelope(Some(p), m.signature, m.unrecognized);
    EnvelopeWithBody(p, m.signature, m.unrecognized);
    AtFront(b + rest, []);
    assert b + rest + [] == b + rest;
    RequestBodyThenRest(data, m, p, bodyFields, fs, |b|);
  }

  lemma RequestWithoutBodyRoundTrip(m: RequestValue, fs: seq<UnknownField>)
    requires m.body.None? && m.unrecognized == EncodeFields(fs) && ValidFields(fs) && Foreign(fs, {1, 2})
    requires |EncodeRequest(m)| <= MaxLen
    ensures DecodeRequest(EncodeRequest(m), 0, EmptyRequest) == Ok(m)
  {
    var data := EncodeRequest(m);
    var rest := Envelope(None, m.signature, m.unrecognized);
    assert data == rest;
    AtFront(rest, []);
    assert rest + [] == rest;
    RequestAfterBody(data, 0, m, fs);
    assert RequestValue(m.body, None, []) == EmptyRequest;
  }

  /**
   * Round trip: decoding the encoding of a request into an empty one
   * gives it back, when its unknown bytes (and its body's) are encoded
   * fields with numbers the message does not use.
   */
  lemma RequestRoundTrip(m: RequestValue, bodyFields: seq<UnknownField>, fs: seq<UnknownField>)
    requires m.body.Some? ==> m.body.value.unrecognized == EncodeFields(bodyFields) && ValidFields(bodyFields)
    requires m.unrecognized == EncodeFields(fs) && ValidFields(fs) && Foreign(fs, {1, 2})
    requires |EncodeRequest(m)| <= MaxLen
    ensures DecodeRequest(EncodeRequest(m), 0, EmptyRequest) == Ok(m)
  {
    if m.body.Some? {
      RequestWithBodyRoundTrip(m, bodyFields, fs);
    } else {
      RequestWithoutBodyRoundTrip(m, fs);
    }
  }
}
