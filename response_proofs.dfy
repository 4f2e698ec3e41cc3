/**
 * What the `HealthCheckResponse` decoders do with encoded input: each kind of
 * field advances the decoder by exactly its encoding and changes the
 * message the way `Unmarshal` does, so decoding an encoding gives the
 * message back; and the malformed inputs the source refuses are refused
 * with the source's errors.
 */
module ResponseProofs {
  import opened GoInts
  import opened Wrappers
  import opened WireErrors
  import opened Buffers
  import opened Varint
  import opened Wire
  import opened HealthSpec

  // ------------------------------------------ HealthCheckResponse_Body

  /** The decoder continues from wherever one pass of its loop leaves off. */
  lemma ResponseBodyThen(data: seq<uint8>, i: nat, acc: ResponseBodyValue, k: nat, next: ResponseBodyValue, r: Result<ResponseBodyValue, CodecError>)
    requires i < |data| <= MaxLen && ResponseBodyStep(data, i, acc) == Ok((k, next))
    requires DecodeResponseBody(data, k, next) == r
    ensures DecodeResponseBody(data, i, acc) == r
  {
  }

  /** A field other than the status is skipped and its bytes appended to the unknown bytes. */
  lemma ResponseBodySkip(data: seq<uint8>, i: nat, acc: ResponseBodyValue, k: nat)
    requires i < |data| <= MaxLen
    requires ReadTag(data, i, "Body").Ok? && ReadTag(data, i, "Body").value.fieldNum !in {1}
    requires Unknown(data, i) == Ok(k)
    ensures ResponseBodyStep(data, i, acc) == Ok((k, acc.(unrecognized := acc.unrecognized + data[i..k])))
  {
  }

  /** A run of unknown fields is appended to the unknown bytes verbatim and in order. */
  lemma {:induction false} ResponseBodyRun(data: seq<uint8>, i: nat, j: nat, acc: ResponseBodyValue, final: ResponseBodyValue, r: Result<ResponseBodyValue, CodecError>)
    requires i <= j <= |data| <= MaxLen && UnknownRun(data, i, j, "Body", {1})
    requires final == acc.(unrecognized := acc.unrecognized + data[i..j])
    requires DecodeResponseBody(data, j, final) == r
    ensures DecodeResponseBody(data, i, acc) == r
    decreases j - i
  {
    if i == j {
      assert acc.unrecognized + data[i..j] == acc.unrecognized;
    } else {
      var k := Unknown(data, i).value;
      var next := acc.(unrecognized := acc.unrecognized + data[i..k]);
      SliceJoin(data, i, k, j);
      AppendAssoc(acc.unrecognized, data[i..k], data[k..j]);
      ResponseBodyRun(data, k, j, next, final, r);
      ResponseBodySkip(data, i, acc, k);
      ResponseBodyThen(data, i, acc, k, next, r);
    }
  }

  /** A status field sets the status, whatever the status was before. */
  lemma StatusStep(data: seq<uint8>, i: nat, acc: ResponseBodyValue, s: uint64, k: nat)
    requires |data| <= MaxLen && At(data, i, [StatusKey] + VarintBytes(s))
    requires k == i + 1 + |VarintBytes(s)|
    ensures i < |data| && ResponseBodyStep(data, i, acc) == Ok((k, acc.(status := s)))
  {
    KeyedVarintAt(data, i, StatusKey, 1, s, "Body", i + 1, k);
    StatusStepOk(data, i, acc, s, i + 1, k);
  }

  lemma StatusStepOk(data: seq<uint8>, i: nat, acc: ResponseBodyValue, s: uint64, n: nat, k: nat)
    requires i < |data| <= MaxLen && ReadTag(data, i, "Body") == Ok(Tag(Key(1, 0), 1, 0, n))
    requires ReadVarint(data, n) == Ok(VarintRead(s, k))
    ensures ResponseBodyStep(data, i, acc) == Ok((k, acc.(status := s)))
  {
  }

  /** Encoded unknown fields that end the input are appended to the unknown bytes. */
  lemma ResponseBodyFields(data: seq<uint8>, k: nat, fs: seq<UnknownField>, acc: ResponseBodyValue, final: ResponseBodyValue)
    requires |data| <= MaxLen && ValidFields(fs) && Foreign(fs, {1}) && At(data, k, EncodeFields(fs))
    requires k + |EncodeFields(fs)| == |data| && final == acc.(unrecognized := acc.unrecognized + EncodeFields(fs))
    ensures DecodeResponseBody(data, k, acc) == Ok(final)
  {
    AtSlice(data, k, EncodeFields(fs));
    EncodedFieldsRun(data, k, fs, |data|, "Body", {1});
    assert data[k..|data|] == EncodeFields(fs);
    ResponseBodyRun(data, k, |data|, acc, final, Ok(final));
  }

  /** Round trip: decoding the encoding of a response body into an empty one gives it back. */
  lemma ResponseBodyRoundTrip(b: ResponseBodyValue, fs: seq<UnknownField>)
    requires b.unrecognized == EncodeFields(fs) && ValidFields(fs) && Foreign(fs, {1})
    requires |EncodeResponseBody(b)| <= MaxLen
    ensures DecodeResponseBody(EncodeResponseBody(b), 0, EmptyResponseBody) == Ok(b)
  {
    var data := EncodeResponseBody(b);
    var head := StatusField(b.status);
    var k := |head|;
    AtFront(head, b.unrecognized);
    AtSplit(data, 0, head, b.unrecognized);
    var start := ResponseBodyValue(b.status, []);
    ResponseBodyFields(data, k, fs, start, b);
    if b.status != 0 {
      StatusStep(data, 0, EmptyResponseBody, b.status, k);
      assert EmptyResponseBody.(status := b.status) == start;
      ResponseBodyThen(data, 0, EmptyResponseBody, k, start, Ok(b));
    } else {
      assert k == 0 && start == EmptyResponseBody;
    }
  }

  /** Of two status fields the second wins, because the field is reset and read again. */
  lemma LastStatusWins(acc: ResponseBodyValue, first: uint64, second: uint64)
    requires |[StatusKey] + VarintBytes(first) + [StatusKey] + VarintBytes(second)| <= MaxLen
    ensures DecodeResponseBody([StatusKey] + VarintBytes(first) + [StatusKey] + VarintBytes(second), 0, acc) == Ok(acc.(status := second))
  {
    var x := [StatusKey] + VarintBytes(first);
    var y := [StatusKey] + VarintBytes(second);
    var data := x + y;
    AppendAssoc(x, [StatusKey], VarintBytes(second));
    AtFront(x, y);
    AtSplit(data, 0, x, y);
    StatusStep(data, |x|, acc.(status := first), second, |data|);
    ResponseBodyThen(data, |x|, acc.(status := first), |data|, acc.(status := second), Ok(acc.(status := second)));
    StatusStep(data, 0, acc, first, |x|);
    ResponseBodyThen(data, 0, acc, |x|, acc.(status := first), Ok(acc.(status := second)));
  }

  // ----------------------------------------------- HealthCheckResponse

  lemma ResponseThen(data: seq<uint8>, i: nat, acc: ResponseValue, k: nat, next: ResponseValue, r: Result<ResponseValue, CodecError>)
    requires i < |data| <= MaxLen && ResponseStep(data, i, acc) == Ok((k, next))
    requires DecodeResponse(data, k, next) == r
    ensures DecodeResponse(data, i, acc) == r
  {
  }

  lemma ResponseSkip(data: seq<uint8>, i: nat, acc: ResponseValue, k: nat)
    requires i < |data| <= MaxLen
    requires ReadTag(data, i, "HealthCheckResponse").Ok? && ReadTag(data, i, "HealthCheckResponse").value.fieldNum !in {1, 2}
    requires Unknown(data, i) == Ok(k)
    ensures ResponseStep(data, i, acc) == Ok((k, acc.(unrecognized := acc.unrecognized + data[i..k])))
  {
  }

  lemma {:induction false} ResponseRun(data: seq<uint8>, i: nat, j: nat, acc: ResponseValue, final: ResponseValue, r: Result<ResponseValue, CodecError>)
    requires i <= j <= |data| <= MaxLen && UnknownRun(data, i, j, "HealthCheckResponse", {1, 2})
    requires final == acc.(unrecognized := acc.unrecognized + data[i..j])
    requires DecodeResponse(data, j, final) == r
    ensures DecodeResponse(data, i, acc) == r
    decreases j - i
  {
    if i == j {
      assert acc.unrecognized + data[i..j] == acc.unrecognized;
    } else {
      var k := Unknown(data, i).value;
      var next := acc.(unrecognized := acc.unrecognized + data[i..k]);
      SliceJoin(data, i, k, j);
      AppendAssoc(acc.unrecognized, data[i..k], data[k..j]);
      ResponseRun(data, k, j, next, final, r);
      ResponseSkip(data, i, acc, k);
      ResponseThen(data, i, acc, k, next, r);
    }
  }

  lemma ResponseFields(data: seq<uint8>, k: nat, fs: seq<UnknownField>, acc: ResponseValue, final: ResponseValue)
    requires |data| <= MaxLen && ValidFields(fs) && Foreign(fs, {1, 2}) && At(data, k, EncodeFields(fs))
    requires k + |EncodeFields(fs)| == |data| && final == acc.(unrecognized := acc.unrecognized + EncodeFields(fs))
    ensures DecodeResponse(data, k, acc) == Ok(final)
  {
    AtSlice(data, k, EncodeFields(fs));
    EncodedFieldsRun(data, k, fs, |data|, "HealthCheckResponse", {1, 2});
    assert data[k..|data|] == EncodeFields(fs);
    ResponseRun(data, k, |data|, acc, final, Ok(final));
  }

  /**
   * A body field is decoded on its own bytes, starting from the body
   * already there (or an empty one), and the result becomes the body.
   */
  lemma ResponseBodyField(data: seq<uint8>, i: nat, acc: ResponseValue, p: seq<uint8>, b: ResponseBodyValue, k: nat)
    requires |data| <= MaxLen && At(data, i, EmbeddedField(BodyKey, p))
    requires DecodeResponseBody(p, 0, ResponseBodyOrEmpty(acc.body)) == Ok(b)
    requires k == i + 1 + |VarintBytes(|p|)| + |p|
    ensures i < |data| && ResponseStep(data, i, acc) == Ok((k, acc.(body := Some(b))))
  {
    var n := i + 1;
    var start := n + |VarintBytes(|p|)|;
    KeyedEmbeddedAt(data, i, BodyKey, 1, p, "HealthCheckResponse", n, start, k);
    ResponseBodyStepOk(data, i, acc, n, start, k, b);
  }

  lemma ResponseBodyStepOk(data: seq<uint8>, i: nat, acc: ResponseValue, n: nat, start: nat, k: nat, b: ResponseBodyValue)
    requires i < |data| <= MaxLen && ReadTag(data, i, "HealthCheckResponse") == Ok(Tag(Key(1, 2), 1, 2, n))
    requires Embedded(data, n) == Ok(Span(start, k)) && start <= k <= |data|
    requires DecodeResponseBody(data[start..k], 0, ResponseBodyOrEmpty(acc.body)) == Ok(b)
    ensures ResponseStep(data, i, acc) == Ok((k, acc.(body := Some(b))))
  {
  }

  /** A signature field appends its bytes to the signature already there. */
  lemma ResponseSignatureField(data: seq<uint8>, i: nat, acc: ResponseValue, p: seq<uint8>, k: nat)
    requires |data| <= MaxLen && At(data, i, EmbeddedField(SignatureKey, p))
    requires k == i + 1 + |VarintBytes(|p|)| + |p|
    ensures i < |data| && ResponseStep(data, i, acc) == Ok((k, acc.(signature := Some(BytesOrEmpty(acc.signature) + p))))
  {
    var n := i + 1;
    var start := n + |VarintBytes(|p|)|;
    KeyedEmbeddedAt(data, i, SignatureKey, 2, p, "HealthCheckResponse", n, start, k);
    ResponseSignatureStepOk(data, i, acc, n, start, k);
  }

  lemma ResponseSignatureStepOk(data: seq<uint8>, i: nat, acc: ResponseValue, n: nat, start: nat, k: nat)
    requires i < |data| <= MaxLen && ReadTag(data, i, "HealthCheckResponse") == Ok(Tag(Key(2, 2), 2, 2, n))
    requires Embedded(data, n) == Ok(Span(start, k)) && start <= k <= |data|
    ensures ResponseStep(data, i, acc) == Ok((k, acc.(signature := Some(BytesOrEmpty(acc.signature) + data[start..k]))))
  {
  }

  /** A signature field followed by unknown fields, decoded after the body. */
  lemma ResponseSignatureThenFields(data: seq<uint8>, k: nat, body: Option<ResponseBodyValue>, p: seq<uint8>, fs: seq<UnknownField>, j: nat)
    requires |data| <= MaxLen && ValidFields(fs) && Foreign(fs, {1, 2})
    requires At(data, k, EmbeddedField(SignatureKey, p) + EncodeFields(fs))
    requires j == k + |EmbeddedField(SignatureKey, p)| && j + |EncodeFields(fs)| == |data|
    ensures DecodeResponse(data, k, ResponseValue(body, None, [])) == Ok(ResponseValue(body, Some(p), EncodeFields(fs)))
  {
    AtSplit(data, k, EmbeddedField(SignatureKey, p), EncodeFields(fs));
    var before := ResponseValue(body, None, []);
    var acc := ResponseValue(body, Some(p), []);
    var final := ResponseValue(body, Some(p), EncodeFields(fs));
    assert acc.unrecognized + EncodeFields(fs) == EncodeFields(fs);
    ResponseFields(data, j, fs, acc, final);
    assert j == k + 1 + |VarintBytes(|p|)| + |p|;
    ResponseSignatureField(data, k, before, p, j);
    assert BytesOrEmpty(before.signature) == [];
    assert BytesOrEmpty(before.signature) + p == p;
    assert before.(signature := Some(BytesOrEmpty(before.signature) + p)) == acc;
    ResponseThen(data, k, before, j, acc, Ok(final));
  }

  /** The signature and the unknown fields after the body decode into the message. */
  lemma ResponseAfterBody(data: seq<uint8>, k: nat, m: ResponseValue, fs: seq<UnknownField>)
    requires |data| <= MaxLen && m.unrecognized == EncodeFields(fs) && ValidFields(fs) && Foreign(fs, {1, 2})
    requires At(data, k, Envelope(None, m.signature, m.unrecognized)) && k + |Envelope(None, m.signature, m.unrecognized)| == |data|
    ensures DecodeResponse(data, k, ResponseValue(m.body, None, [])) == Ok(m)
  {
    if m.signature.Some? {
      var p := m.signature.value;
      var sig := EmbeddedField(SignatureKey, p);
      assert Envelope(None, m.signature, m.unrecognized) == sig + EncodeFields(fs);
      ResponseSignatureThenFields(data, k, m.body, p, fs, k + |sig|);
      assert ResponseValue(m.body, Some(p), EncodeFields(fs)) == m;
    } else {
      assert Envelope(None, m.signature, m.unrecognized) == EncodeFields(fs);
      var acc := ResponseValue(m.body, None, []);
      assert acc.unrecognized + EncodeFields(fs) == EncodeFields(fs);
      ResponseFields(data, k, fs, acc, m);
    }
  }

  /** A body field at the start, decoded into an empty response, then what follows it. */
  lemma ResponseBodyFirst(data: seq<uint8>, p: seq<uint8>, b: ResponseBodyValue, j: nat, r: Result<ResponseValue, CodecError>)
    requires |data| <= MaxLen && At(data, 0, EmbeddedField(BodyKey, p)) && j == |EmbeddedField(BodyKey, p)|
    requires DecodeResponseBody(p, 0, EmptyResponseBody) == Ok(b)
    requires DecodeResponse(data, j, ResponseValue(Some(b), None, [])) == r
    ensures DecodeResponse(data, 0, EmptyResponse) == r
  {
    assert j == 0 + 1 + |VarintBytes(|p|)| + |p|;
    ResponseBodyField(data, 0, EmptyResponse, p, b, j);
    assert EmptyResponse.(body := Some(b)) == ResponseValue(Some(b), None, []);
    ResponseThen(data, 0, EmptyResponse, j, ResponseValue(Some(b), None, []), r);
  }

  /** A response with a body: the body field, then what follows it. */
  lemma ResponseBodyThenRest(data: seq<uint8>, m: ResponseValue, p: seq<uint8>, bodyFields: seq<UnknownField>, fs: seq<UnknownField>, j: nat)
    requires m.body.Some? && p == EncodeResponseBody(m.body.value)
    requires m.body.value.unrecognized == EncodeFields(bodyFields) && ValidFields(bodyFields) && Foreign(bodyFields, {1})
    requires m.unrecognized == EncodeFields(fs) && ValidFields(fs) && Foreign(fs, {1, 2})
    requires |data| <= MaxLen && At(data, 0, EmbeddedField(BodyKey, p) + Envelope(None, m.signature, m.unrecognized))
    requires j == |EmbeddedField(BodyKey, p)| && j + |Envelope(None, m.signature, m.unrecognized)| == |data|
    ensures DecodeResponse(data, 0, EmptyResponse) == Ok(m)
  {
    AtSplit(data, 0, EmbeddedField(BodyKey, p), Envelope(None, m.signature, m.unrecognized));
    ResponseAfterBody(data, j, m, fs);
    ResponseBodyRoundTrip(m.body.value, bodyFields);
    assert ResponseValue(m.body, None, []) == ResponseValue(Some(m.body.value), None, []);
    ResponseBodyFirst(data, p, m.body.value, j, Ok(m));
  }

  lemma ResponseWithBodyRoundTrip(m: ResponseValue, bodyFields: seq<UnknownField>, fs: seq<UnknownField>)
    requires m.body.Some? && m.body.value.unrecognized == EncodeFields(bodyFields) && ValidFields(bodyFields) && Foreign(bodyFields, {1})
    requires m.unrecognized == EncodeFields(fs) && ValidFields(fs) && Foreign(fs, {1, 2})
    requires |EncodeResponse(m)| <= MaxLen
    ensures DecodeResponse(EncodeResponse(m), 0, EmptyResponse) == Ok(m)
  {
    var data := EncodeResponse(m);
    var rest := Envelope(None, m.signature, m.unrecognized);
    var p := EncodeResponseBody(m.body.value);
    var b := EmbeddedField(BodyKey, p);
    assert data == Envelope(Some(p), m.signature, m.unrecognized);
    EnvelopeWithBody(p, m.signature, m.unrecognized);
    AtFront(b + rest, []);
    assert b + rest + [] == b + rest;
    ResponseBodyThenRest(data, m, p, bodyFields, fs, |b|);
  }

  lemma ResponseWithoutBodyRoundTrip(m: ResponseValue, fs: seq<UnknownField>)
    requires m.body.None? && m.unrecognized == EncodeFields(fs) && ValidFields(fs) && Foreign(fs, {1, 2})
    requires |EncodeResponse(m)| <= MaxLen
    ensures DecodeResponse(EncodeResponse(m), 0, EmptyResponse) == Ok(m)
  {
    var data := EncodeResponse(m);
    var rest := Envelope(None, m.signature, m.unrecognized);
    assert data == rest;
    AtFront(rest, []);
    assert rest + [] == rest;
    ResponseAfterBody(data, 0, m, fs);
    assert ResponseValue(m.body, None, []) == EmptyResponse;
  }

  /**
   * Round trip: decoding the encoding of a response into an empty one
   * gives it back, when its unknown bytes (and its body's) are encoded
   * fields with numbers the message does not use.
   */
  lemma ResponseRoundTrip(m: ResponseValue, bodyFields: seq<UnknownField>, fs: seq<UnknownField>)
    requires m.body.Some? ==> m.body.value.unrecognized == EncodeFields(bodyFields) && ValidFields(bodyFields) && Foreign(bodyFields, {1})
    requires m.unrecognized == EncodeFields(fs) && ValidFields(fs) && Foreign(fs, {1, 2})
    requires |EncodeResponse(m)| <= MaxLen
    ensures DecodeResponse(EncodeResponse(m), 0, EmptyResponse) == Ok(m)
  {
    if m.body.Some? {
      ResponseWithBodyRoundTrip(m, bodyFields, fs);
    } else {
      ResponseWithoutBodyRoundTrip(m, fs);
    }
  }
}
