/**
 * The generated message types of the private health check as objects:
 * `Size`, `MarshalTo`, `Marshal` and `Unmarshal` work on their fields
 * the way the generated Go code does, and each is proved against the
 * encoding and decoding functions of their values.
 */
module HealthMessages {
  import opened GoInts
  import opened Wrappers
  import opened WireErrors
  import opened Buffers
  import opened Varint
  import opened Wire
  import opened HealthSpec

  /** Go's `copy(dAtA[i:], s)` into a buffer with room for s: returns the index after the copy. */
  method CopyInto(a: array<uint8>, offset: nat, s: seq<uint8>) returns (end: nat)
    requires offset + |s| <= a.Length
    modifies a
    ensures end == offset + |s|
    ensures a[..] == Splice(old(a[..]), offset, s)
  {
    forall k | 0 <= k < |s| {
      a[offset + k] := s[k];
    }
    end := offset + |s|;
    assert a[..] == Splice(old(a[..]), offset, s) by {
      forall j | 0 <= j < a.Length
        ensures a[j] == Splice(old(a[..]), offset, s)[j]
      {
        if j < offset {
          assert Splice(old(a[..]), offset, s)[j] == old(a[..])[..offset][j];
        } else if j < offset + |s| {
          assert Splice(old(a[..]), offset, s)[j] == (old(a[..])[..offset] + s)[j];
        } else {
          assert Splice(old(a[..]), offset, s)[j] == old(a[..])[offset + |s|..][j - offset - |s|];
        }
      }
    }
  }

  /** One byte written just after a written run extends the run. */
  method PutByte(a: array<uint8>, offset: nat, i: nat, b: uint8, ghost before: seq<uint8>, ghost written: seq<uint8>) returns (next: nat)
    requires |before| == a.Length && i == offset + |written| && i < a.Length
    requires a[..] == Splice(before, offset, written)
    modifies a
    ensures next == i + 1
    ensures a[..] == Splice(before, offset, written + [b])
  {
    SpliceExtend(before, offset, written, b);
    a[i] := b;
    assert a[..] == Splice(before, offset, written)[i := b];
    next := i + 1;
  }

  /** A varint written just after a written run extends the run. */
  method PutVarint(a: array<uint8>, offset: nat, i: nat, v: uint64, ghost before: seq<uint8>, ghost written: seq<uint8>) returns (next: nat)
    requires |before| == a.Length && i == offset + |written| && i + |VarintBytes(v)| <= a.Length
    requires a[..] == Splice(before, offset, written)
    modifies a
    ensures next == i + |VarintBytes(v)|
    ensures a[..] == Splice(before, offset, written + VarintBytes(v))
  {
    next := EncodeVarintService(a, i, v);
    SpliceTwice(before, offset, written, VarintBytes(v));
  }

  /** Bytes copied just after a written run extend the run. */
  method PutBytes(a: array<uint8>, offset: nat, i: nat, s: seq<uint8>, ghost before: seq<uint8>, ghost written: seq<uint8>) returns (next: nat)
    requires |before| == a.Length && i == offset + |written| && i + |s| <= a.Length
    requires a[..] == Splice(before, offset, written)
    modifies a
    ensures next == i + |s|
    ensures a[..] == Splice(before, offset, written + s)
  {
    next := CopyInto(a, i, s);
    SpliceTwice(before, offset, written, s);
  }

  /** The key and the length prefix of a length-delimited field, written after a written run. */
  method PutFieldHeader(a: array<uint8>, offset: nat, i: nat, key: uint8, len: uint64, ghost before: seq<uint8>, ghost written: seq<uint8>) returns (next: nat)
    requires |before| == a.Length && i == offset + |written| && i + 1 + |VarintBytes(len)| <= a.Length
    requires a[..] == Splice(before, offset, written)
    modifies a
    ensures next == i + 1 + |VarintBytes(len)|
    ensures a[..] == Splice(before, offset, written + [key] + VarintBytes(len))
  {
    next := PutByte(a, offset, i, key, before, written);
    next := PutVarint(a, offset, next, len, before, written + [key]);
  }

  /** A payload written after its field header completes the field. */
  lemma SpliceField(before: seq<uint8>, offset: nat, written: seq<uint8>, key: uint8, p: seq<uint8>, mid: seq<uint8>, after: seq<uint8>)
    requires offset + |written| + |EmbeddedField(key, p)| <= |before|
    requires mid == Splice(before, offset, written + [key] + VarintBytes(|p|))
    requires after == Splice(mid, offset + |written| + 1 + |VarintBytes(|p|)|, p)
    ensures after == Splice(before, offset, written + EmbeddedField(key, p))
  {
    var w := written + [key] + VarintBytes(|p|);
    SpliceTwice(before, offset, w, p);
    assert w + p == written + EmbeddedField(key, p);
  }

  /**
   * `Signature` comes from another package; it is kept as the bytes of
   * its own encoding. Unmarshalling into it merges, which for a protobuf
   * message is the same as appending the encodings.
   */
  class Signature {
    var bytes: seq<uint8>

    constructor()
      ensures bytes == []
    {
      bytes := [];
    }

    method Size() returns (n: nat)
      ensures n == |bytes|
    {
      n := |bytes|;
    }

    method MarshalTo(a: array<uint8>, offset: nat) returns (n: nat)
      requires offset + |bytes| <= a.Length
      modifies a
      ensures n == |bytes|
      ensures a[..] == Splice(old(a[..]), offset, bytes)
    {
      var end := CopyInto(a, offset, bytes);
      n := end - offset;
    }

    method Unmarshal(data: seq<uint8>) returns (err: Option<CodecError>)
      modifies this
      ensures err.None? && bytes == old(bytes) + data
    {
      bytes := bytes + data;
      err := None;
    }
  }

  // ------------------------------------------- HealthCheckRequest_Body

  class RequestBody {
    var unrecognized: seq<uint8>

    /** `&HealthCheckRequest_Body{}` */
    constructor()
      ensures Model() == EmptyRequestBody
    {
      unrecognized := [];
    }

    function Model(): RequestBodyValue
      reads this
    {
      RequestBodyValue(unrecognized)
    }

    /** `Size`, which Go lets a nil message answer with 0. */
    static method Size(m: RequestBody?) returns (n: nat)
      ensures m == null ==> n == 0
      ensures m != null ==> n == |EncodeRequestBody(m.Model())|
    {
      if m == null {
        return 0;
      }
      n := 0;
      n := n + |m.unrecognized|;
    }

    method MarshalTo(a: array<uint8>, offset: nat) returns (n: nat)
      requires offset + |EncodeRequestBody(Model())| <= a.Length
      modifies a
      ensures n == |EncodeRequestBody(Model())|
      ensures a[..] == Splice(old(a[..]), offset, EncodeRequestBody(Model()))
    {
      var i := CopyInto(a, offset, unrecognized);
      n := i - offset;
    }

    /** `Marshal`: a buffer of `Size()` bytes, filled by `MarshalTo`. */
    method Marshal() returns (data: seq<uint8>)
      ensures data == EncodeRequestBody(Model())
    {
      var size := Size(this);
      var a := new uint8[size];
      var n := MarshalTo(a, 0);
      data := a[..n];
    }

    method Unmarshal(data: seq<uint8>) returns (err: Option<CodecError>)
      requires |data| <= MaxLen
      modifies this
      ensures err.None? <==> DecodeRequestBody(data, 0, old(Model())).Ok?
      ensures err.None? ==> Model() == DecodeRequestBody(data, 0, old(Model())).value
      ensures err.Some? ==> err.value == DecodeRequestBody(data, 0, old(Model())).error
    {
      var i: nat := 0;
      while i < |data|
        invariant i <= |data|
        invariant DecodeRequestBody(data, i, Model()) == DecodeRequestBody(data, 0, old(Model()))
        decreases |data| - i
      {
        var preIndex := i;
        var tag := DecodeTag(data, i, "Body");
        if tag.Err? {
          return Some(tag.error);
        }
        var skippy := SkipUnknown(data, preIndex);
        if skippy.Err? {
          return Some(skippy.error);
        }
        unrecognized := unrecognized + data[preIndex..skippy.value];
        i := skippy.value;
      }
      return None;
    }
  }

  // ------------------------------------------ HealthCheckResponse_Body

  class ResponseBody {
    var status: uint64
    var unrecognized: seq<uint8>

    /** `&HealthCheckResponse_Body{}` */
    constructor()
      ensures Model() == EmptyResponseBody
    {
      status := 0;
      unrecognized := [];
    }

    function Model(): ResponseBodyValue
      reads this
    {
      ResponseBodyValue(status, unrecognized)
    }

    /** `Size`, which Go lets a nil message answer with 0. */
    static method Size(m: ResponseBody?) returns (n: nat)
      ensures m == null ==> n == 0
      ensures m != null ==> n == |EncodeResponseBody(m.Model())|
    {
      if m == null {
        return 0;
      }
      n := 0;
      if m.status != 0 {
        var sov := SovService(m.status);
        n := n + 1 + sov;
      }
      n := n + |m.unrecognized|;
    }

    method MarshalTo(a: array<uint8>, offset: nat) returns (n: nat)
      requires offset + |EncodeResponseBody(Model())| <= a.Length
      modifies a
      ensures n == |EncodeResponseBody(Model())|
      ensures a[..] == Splice(old(a[..]), offset, EncodeResponseBody(Model()))
    {
      ghost var before := a[..];
      ghost var written: seq<uint8> := [];
      var i := offset;
      SpliceEmpty(before, offset);
      if status != 0 {
        i := PutByte(a, offset, i, StatusKey, before, written);
        written := written + [StatusKey];
        i := PutVarint(a, offset, i, status, before, written);
        written := written + VarintBytes(status);
      }
      assert written == StatusField(status);
      i := PutBytes(a, offset, i, unrecognized, before, written);
      written := written + unrecognized;
      n := i - offset;
    }

    /** `Marshal`: a buffer of `Size()` bytes, filled by `MarshalTo`. */
    method Marshal() returns (data: seq<uint8>)
      ensures data == EncodeResponseBody(Model())
    {
      var size := Size(this);
      var a := new uint8[size];
      var n := MarshalTo(a, 0);
      data := a[..n];
    }

    method Unmarshal(data: seq<uint8>) returns (err: Option<CodecError>)
      requires |data| <= MaxLen
      modifies this
      ensures err.None? <==> DecodeResponseBody(data, 0, old(Model())).Ok?
      ensures err.None? ==> Model() == DecodeResponseBody(data, 0, old(Model())).value
      ensures err.Some? ==> err.value == DecodeResponseBody(data, 0, old(Model())).error
    {
      var i: nat := 0;
      while i < |data|
        invariant i <= |data|
        invariant DecodeResponseBody(data, i, Model()) == DecodeResponseBody(data, 0, old(Model()))
        decreases |data| - i
      {
        var preIndex := i;
        var tag := DecodeTag(data, i, "Body");
        if tag.Err? {
          return Some(tag.error);
        }
        if tag.value.fieldNum == 1 {
          if tag.value.wireType != 0 {
            return Some(WrongWireType("Status", tag.value.wireType));
          }
          var v := DecodeVarint(data, tag.value.next);
          if v.Err? {
            return Some(v.error);
          }
          status := v.value.value;
          i := v.value.next;
        } else {
          var skippy := SkipUnknown(data, preIndex);
          if skippy.Err? {
            return Some(skippy.error);
          }
          unrecognized := unrecognized + data[preIndex..skippy.value];
          i := skippy.value;
        }
      }
      return None;
    }
  }

  // ------------------------------ HealthCheckRequest

  class Request {
    var body: RequestBody?
    var signature: Signature?
    var unrecognized: seq<uint8>

    /** `&HealthCheckRequest{}` */
    constructor()
      ensures Model() == EmptyRequest
    {
      body := null;
      signature := null;
      unrecognized := [];
    }

    function Model(): RequestValue
      reads this, body, signature
    {
      RequestValue(if body == null then None else Some(body.Model()), if signature == null then None else Some(signature.bytes), unrecognized)
    }

    /** `Size`, which Go lets a nil message answer with 0. */
    static method Size(m: Request?) returns (n: nat)
      requires m != null ==> |EncodeRequest(m.Model())| < TWO_63
      ensures m == null ==> n == 0
      ensures m != null ==> n == |EncodeRequest(m.Model())|
    {
      if m == null {
        return 0;
      }
      n := 0;
      if m.body != null {
        var l := RequestBody.Size(m.body);
        var sov := SovService(l);
        n := n + 1 + l + sov;
      }
      if m.signature != null {
        var l := m.signature.Size();
        var sov := SovService(l);
        n := n + 1 + l + sov;
      }
      n := n + |m.unrecognized|;
    }

    method MarshalTo(a: array<uint8>, offset: nat) returns (n: nat)
      requires offset + |EncodeRequest(Model())| <= a.Length < TWO_63
      modifies a
      ensures n == |EncodeRequest(Model())|
      ensures a[..] == Splice(old(a[..]), offset, EncodeRequest(Model()))
    {
      ghost var bodyField := if body != null then EmbeddedField(BodyKey, EncodeRequestBody(body.Model())) else [];
      ghost var signatureField := if signature != null then EmbeddedField(SignatureKey, signature.bytes) else [];
      ghost var m := Model();
      assert EncodeRequest(m) == bodyField + signatureField + unrecognized;
      ghost var before := a[..];
      var i := offset;
      SpliceEmpty(before, offset);
      if body != null {
        i := PutBody(a, offset, i, before, []);
        assert Model() == m;
        assert [] + bodyField == bodyField;
      }
      assert a[..] == Splice(before, offset, bodyField) && i == offset + |bodyField|;
      if signature != null {
        i := PutSignature(a, offset, i, before, bodyField);
        assert Model() == m;
        assert a[..] == Splice(before, offset, bodyField + signatureField);
      } else {
        assert bodyField + signatureField == bodyField;
      }
      assert a[..] == Splice(before, offset, bodyField + signatureField) && i == offset + |bodyField + signatureField|;
      i := PutBytes(a, offset, i, unrecognized, before, bodyField + signatureField);
      assert Model() == m;
      n := i - offset;
    }

    /** The body field: its key, `Body.Size()` as a varint, then `Body.MarshalTo`. */
    method PutBody(a: array<uint8>, offset: nat, i: nat, ghost before: seq<uint8>, ghost written: seq<uint8>) returns (next: nat)
      requires body != null && |before| == a.Length < TWO_63 && i == offset + |written|
      requires i + |EmbeddedField(BodyKey, EncodeRequestBody(body.Model()))| <= a.Length
      requires a[..] == Splice(before, offset, written)
      modifies a
      ensures next == i + |EmbeddedField(BodyKey, EncodeRequestBody(body.Model()))|
      ensures a[..] == Splice(before, offset, written + EmbeddedField(BodyKey, EncodeRequestBody(body.Model())))
    {
      ghost var p := EncodeRequestBody(body.Model());
      var l := RequestBody.Size(body);
      var j := PutFieldHeader(a, offset, i, BodyKey, l, before, written);
      ghost var mid := a[..];
      var n1 := body.MarshalTo(a, j);
      assert EncodeRequestBody(body.Model()) == p;
      SpliceField(before, offset, written, BodyKey, p, mid, a[..]);
      next := j + n1;
    }

    /** The signature field: its key, `Signature.Size()` as a varint, then `Signature.MarshalTo`. */
    method PutSignature(a: array<uint8>, offset: nat, i: nat, ghost before: seq<uint8>, ghost written: seq<uint8>) returns (next: nat)
      requires signature != null && |before| == a.Length < TWO_63 && i == offset + |written|
      requires i + |EmbeddedField(SignatureKey, signature.bytes)| <= a.Length
      requires a[..] == Splice(before, offset, written)
      modifies a
      ensures next == i + |EmbeddedField(SignatureKey, signature.bytes)|
      ensures a[..] == Splice(before, offset, written + EmbeddedField(SignatureKey, signature.bytes))
    {
      ghost var p := signature.bytes;
      var l := signature.Size();
      var j := PutFieldHeader(a, offset, i, SignatureKey, l, before, written);
      ghost var mid := a[..];
      var n2 := signature.MarshalTo(a, j);
      assert signature.bytes == p;
      SpliceField(before, offset, written, SignatureKey, p, mid, a[..]);
      next := j + n2;
    }

    /** `Marshal`: a buffer of `Size()` bytes, filled by `MarshalTo`. */
    method Marshal() returns (data: seq<uint8>)
      requires |EncodeRequest(Model())| < TWO_63
      ensures data == EncodeRequest(Model())
    {
      var size := Size(this);
      var a := new uint8[size];
      var n := MarshalTo(a, 0);
      data := a[..n];
    }

    method Unmarshal(data: seq<uint8>) returns (err: Option<CodecError>)
      requires |data| <= MaxLen
      modifies this, body, signature
      ensures err.None? <==> DecodeRequest(data, 0, old(Model())).Ok?
      ensures err.None? ==> Model() == DecodeRequest(data, 0, old(Model())).value
      ensures err.Some? ==> err.value == DecodeRequest(data, 0, old(Model())).error
    {
      var i: nat := 0;
      while i < |data|
        invariant i <= |data|
        invariant body == old(body) || (body != null && fresh(body))
        invariant signature == old(signature) || (signature != null && fresh(signature))
        invariant DecodeRequest(data, i, Model()) == DecodeRequest(data, 0, old(Model()))
        decreases |data| - i
      {
        ghost var acc := Model();
        var r := UnmarshalField(data, i);
        if r.Err? {
          return Some(r.error);
        }
        i := r.value;
      }
      return None;
    }

    /** One pass of the loop of `Unmarshal`: the field at i, and the index after it. */
    method UnmarshalField(data: seq<uint8>, i: nat) returns (r: Result<nat, CodecError>)
      requires i < |data| <= MaxLen
      modifies this, body, signature
      ensures body == old(body) || (body != null && fresh(body))
      ensures signature == old(signature) || (signature != null && fresh(signature))
      ensures r.Ok? <==> RequestStep(data, i, old(Model())).Ok?
      ensures r.Ok? ==> RequestStep(data, i, old(Model())).value == (r.value, Model())
      ensures r.Err? ==> r.error == RequestStep(data, i, old(Model())).error
    {
      var preIndex := i;
      var tag := DecodeTag(data, i, "HealthCheckRequest");
      if tag.Err? {
        return Err(tag.error);
      }
      if tag.value.fieldNum == 1 {
        if tag.value.wireType != 2 {
          return Err(WrongWireType("Body", tag.value.wireType));
        }
        var span := DecodeEmbedded(data, tag.value.next);
        if span.Err? {
          return Err(span.error);
        }
        if body == null {
          body := new RequestBody();
        }
        var e := body.Unmarshal(data[span.value.start..span.value.end]);
        if e.Some? {
          return Err(e.value);
        }
        r := Ok(span.value.end);
      } else if tag.value.fieldNum == 2 {
        if tag.value.wireType != 2 {
          return Err(WrongWireType("Signature", tag.value.wireType));
        }
        var span := DecodeEmbedded(data, tag.value.next);
        if span.Err? {
          return Err(span.error);
        }
        if signature == null {
          signature := new Signature();
        }
        var _ := signature.Unmarshal(data[span.value.start..span.value.end]);
        r := Ok(span.value.end);
      } else {
        var skippy := SkipUnknown(data, preIndex);
        if skippy.Err? {
          return Err(skippy.error);
        }
        unrecognized := unrecognized + data[preIndex..skippy.value];
        r := Ok(skippy.value);
      }
    }
  }

  // ----------------------------- HealthCheckResponse

  class Response {
    var body: ResponseBody?
    var signature: Signature?
    var unrecognized: seq<uint8>

    /** `&HealthCheckResponse{}` */
    constructor()
      ensures Model() == EmptyResponse
    {
      body := null;
      signature := null;
      unrecognized := [];
    }

    function Model(): ResponseValue
      reads this, body, signature
    {
      ResponseValue(if body == null then None else Some(body.Model()), if signature == null then None else Some(signature.bytes), unrecognized)
    }

    /** `Size`, which Go lets a nil message answer with 0. */
    static method Size(m: Response?) returns (n: nat)
      requires m != null ==> |EncodeResponse(m.Model())| < TWO_63
      ensures m == null ==> n == 0
      ensures m != null ==> n == |EncodeResponse(m.Model())|
    {
      if m == null {
        return 0;
      }
      n := 0;
      if m.body != null {
        var l := ResponseBody.Size(m.body);
        var sov := SovService(l);
        n := n + 1 + l + sov;
      }
      if m.signature != null {
        var l := m.signature.Size();
        var sov := SovService(l);
        n := n + 1 + l + sov;
      }
      n := n + |m.unrecognized|;
    }

    method MarshalTo(a: array<uint8>, offset: nat) returns (n: nat)
      requires offset + |EncodeResponse(Model())| <= a.Length < TWO_63
      modifies a
      ensures n == |EncodeResponse(Model())|
      ensures a[..] == Splice(old(a[..]), offset, EncodeResponse(Model()))
    {
      ghost var bodyField := if body != null then EmbeddedField(BodyKey, EncodeResponseBody(body.Model())) else [];
      ghost var signatureField := if signature != null then EmbeddedField(SignatureKey, signature.bytes) else [];
      ghost var m := Model();
      assert EncodeResponse(m) == bodyField + signatureField + unrecognized;
      ghost var before := a[..];
      var i := offset;
      SpliceEmpty(before, offset);
      if body != null {
        i := PutBody(a, offset, i, before, []);
        assert Model() == m;
        assert [] + bodyField == bodyField;
      }
      assert a[..] == Splice(before, offset, bodyField) && i == offset + |bodyField|;
      if signature != null {
        i := PutSignature(a, offset, i, before, bodyField);
        assert Model() == m;
        assert a[..] == Splice(before, offset, bodyField + signatureField);
      } else {
        assert bodyField + signatureField == bodyField;
      }
      assert a[..] == Splice(before, offset, bodyField + signatureField) && i == offset + |bodyField + signatureField|;
      i := PutBytes(a, offset, i, unrecognized, before, bodyField + signatureField);
      assert Model() == m;
      n := i - offset;
    }

    /** The body field: its key, `Body.Size()` as a varint, then `Body.MarshalTo`. */
    method PutBody(a: array<uint8>, offset: nat, i: nat, ghost before: seq<uint8>, ghost written: seq<uint8>) returns (next: nat)
      requires body != null && |before| == a.Length < TWO_63 && i == offset + |written|
      requires i + |EmbeddedField(BodyKey, EncodeResponseBody(body.Model()))| <= a.Length
      requires a[..] == Splice(before, offset, written)
      modifies a
      ensures next == i + |EmbeddedField(BodyKey, EncodeResponseBody(body.Model()))|
      ensures a[..] == Splice(before, offset, written + EmbeddedField(BodyKey, EncodeResponseBody(body.Model())))
    {
      ghost var p := EncodeResponseBody(body.Model());
      var l := ResponseBody.Size(body);
      var j := PutFieldHeader(a, offset, i, BodyKey, l, before, written);
      ghost var mid := a[..];
      var n1 := body.MarshalTo(a, j);
      assert EncodeResponseBody(body.Model()) == p;
      SpliceField(before, offset, written, BodyKey, p, mid, a[..]);
      next := j + n1;
    }

    /** The signature field: its key, `Signature.Size()` as a varint, then `Signature.MarshalTo`. */
    method PutSignature(a: array<uint8>, offset: nat, i: nat, ghost before: seq<uint8>, ghost written: seq<uint8>) returns (next: nat)
      requires signature != null && |before| == a.Length < TWO_63 && i == offset + |written|
      requires i + |EmbeddedField(SignatureKey, signature.bytes)| <= a.Length
      requires a[..] == Splice(before, offset, written)
      modifies a
      ensures next == i + |EmbeddedField(SignatureKey, signature.bytes)|
      ensures a[..] == Splice(before, offset, written + EmbeddedField(SignatureKey, signature.bytes))
    {
      ghost var p := signature.bytes;
      var l := signature.Size();
      var j := PutFieldHeader(a, offset, i, SignatureKey, l, before, written);
      ghost var mid := a[..];
      var n2 := signature.MarshalTo(a, j);
      assert signature.bytes == p;
      SpliceField(before, offset, written, SignatureKey, p, mid, a[..]);
      next := j + n2;
    }

    /** `Marshal`: a buffer of `Size()` bytes, filled by `MarshalTo`. */
    method Marshal() returns (data: seq<uint8>)
      requires |EncodeResponse(Model())| < TWO_63
      ensures data == EncodeResponse(Model())
    {
      var size := Size(this);
      var a := new uint8[size];
      var n := MarshalTo(a, 0);
      data := a[..n];
    }

    method Unmarshal(data: seq<uint8>) returns (err: Option<CodecError>)
      requires |data| <= MaxLen
      modifies this, body, signature
      ensures err.None? <==> DecodeResponse(data, 0, old(Model())).Ok?
      ensures err.None? ==> Model() == DecodeResponse(data, 0, old(Model())).value
      ensures err.Some? ==> err.value == DecodeResponse(data, 0, old(Model())).error
    {
      var i: nat := 0;
      while i < |data|
        invariant i <= |data|
        invariant body == old(body) || (body != null && fresh(body))
        invariant signature == old(signature) || (signature != null && fresh(signature))
        invariant DecodeResponse(data, i, Model()) == DecodeResponse(data, 0, old(Model()))
        decreases |data| - i
      {
        ghost var acc := Model();
        var r := UnmarshalField(data, i);
        if r.Err? {
          return Some(r.error);
        }
        i := r.value;
      }
      return None;
    }

    /** One pass of the loop of `Unmarshal`: the field at i, and the index after it. */
    method UnmarshalField(data: seq<uint8>, i: nat) returns (r: Result<nat, CodecError>)
      requires i < |data| <= MaxLen
      modifies this, body, signature
      ensures body == old(body) || (body != null && fresh(body))
      ensures signature == old(signature) || (signature != null && fresh(signature))
      ensures r.Ok? <==> ResponseStep(data, i, old(Model())).Ok?
      ensures r.Ok? ==> ResponseStep(data, i, old(Model())).value == (r.value, Model())
      ensures r.Err? ==> r.error == ResponseStep(data, i, old(Model())).error
    {
      var preIndex := i;
      var tag := DecodeTag(data, i, "HealthCheckResponse");
      if tag.Err? {
        return Err(tag.error);
      }
      if tag.value.fieldNum == 1 {
        if tag.value.wireType != 2 {
          return Err(WrongWireType("Body", tag.value.wireType));
        }
        var span := DecodeEmbedded(data, tag.value.next);
        if span.Err? {
          return Err(span.error);
        }
        if body == null {
          body := new ResponseBody();
        }
        var e := body.Unmarshal(data[span.value.start..span.value.end]);
        if e.Some? {
          return Err(e.value);
        }
        r := Ok(span.value.end);
      } else if tag.value.fieldNum == 2 {
        if tag.value.wireType != 2 {
          return Err(WrongWireType("Signature", tag.value.wireType));
        }
        var span := DecodeEmbedded(data, tag.value.next);
        if span.Err? {
          return Err(span.error);
        }
        if signature == null {
          signature := new Signature();
        }
        var _ := signature.Unmarshal(data[span.value.start..span.value.end]);
        r := Ok(span.value.end);
      } else {
        var skippy := SkipUnknown(data, preIndex);
        if skippy.Err? {
          return Err(skippy.error);
        }
        unrecognized := unrecognized + data[preIndex..skippy.value];
        r := Ok(skippy.value);
      }
    }
  }
}
