/**
 * The field-level steps every generated `Unmarshal` shares: reading a
 * tag, reading the length prefix of an embedded message, and
 * `skipService`, which measures a field the message does not know so
 * that its bytes can be kept in `XXX_unrecognized`.
 */
module Wire {
  import opened GoInts
  import opened Wrappers
  import opened WireErrors
  import opened Buffers
  import opened Varint

  /**
   * Inputs are Go slices, whose length is an `int`; they are bounded a
   * little below 2^63 so that `iNdEx += 8` cannot wrap.
   */
  const MaxLen: nat := TWO_63 - 9

  /** A tag read at some index: the raw varint, `int32(wire >> 3)`, `wire & 0x7` and the index after it. */
  datatype Tag = Tag(wire: uint64, fieldNum: int, wireType: nat, next: nat)

  /**
   * The tag step of `Unmarshal` for the message called `message`:
   * wire type 4 is refused first, then a field number that is not
   * positive once truncated to int32.
   */
  function ReadTag(data: seq<uint8>, i: nat, message: string): (r: Result<Tag, CodecError>)
    ensures r.Ok? ==> i < r.value.next <= |data| && 0 < r.value.fieldNum && r.value.wireType < 8 && r.value.wireType != 4
    ensures r.Ok? <==> ReadVarint(data, i).Ok? && ReadVarint(data, i).value.value % 8 != 4 && Int32(ReadVarint(data, i).value.value / 8) > 0
  {
    match ReadVarint(data, i)
    case Err(e) => Err(e)
    case Ok(t) =>
      var fieldNum := Int32(t.value / 8);
      var wireType := t.value % 8;
      if wireType == 4 then Err(EndGroupForNonGroup(message))
      else if fieldNum <= 0 then Err(IllegalTag(message, fieldNum, t.value))
      else Ok(Tag(t.value, fieldNum, wireType, t.next))
  }

  /** Where the bytes of an embedded message lie: data[start..end]. */
  datatype Span = Span(start: nat, end: nat)

  /**
   * The length-prefix step of a length-delimited field: `msglen` is the
   * varint read as a Go `int`, and `postIndex := iNdEx + msglen` is
   * computed in Go `int` as well; both are checked for being negative
   * before the end is checked against the input.
   */
  function Embedded(data: seq<uint8>, i: nat): (r: Result<Span, CodecError>)
    requires |data| <= MaxLen
    ensures r.Ok? ==> i < r.value.start <= r.value.end <= |data|
  {
    match ReadVarint(data, i)
    case Err(e) => Err(e)
    case Ok(len) =>
      var msglen := Int64(len.value);
      if msglen < 0 then Err(InvalidLength)
      else
        var postIndex := Int64(len.next + msglen);
        if postIndex < 0 then Err(InvalidLength)
        else if postIndex > |data| then Err(UnexpectedEof)
        else Ok(Span(len.next, postIndex))
  }

  /**
   * `skipService(s)`: the length of the field that starts s, tag included.
   * The source's outer loop body always returns, so one pass of it is
   * written here; `panic("unreachable")` for an empty slice is excluded
   * by the precondition, which every caller meets.
   */
  function SkipField(s: seq<uint8>): (r: Result<int, CodecError>)
    requires 0 < |s| <= MaxLen
    ensures r.Ok? ==> 0 < r.value < TWO_63
    decreases |s|, 1, 0
  {
    match ReadVarint(s, 0)
    case Err(e) => Err(e)
    case Ok(t) =>
      var wireType := t.value % 8;
      if wireType == 0 then
        match ReadVarint(s, t.next)
        case Err(e) => Err(e)
        case Ok(v) => Ok(v.next)
      else if wireType == 1 then Ok(t.next + 8)
      else if wireType == 2 then
        match ReadVarint(s, t.next)
        case Err(e) => Err(e)
        case Ok(len) =>
          var length := Int64(len.value);
          if length < 0 then Err(InvalidLength)
          else
            var index := Int64(len.next + length);
            if index < 0 then Err(InvalidLength) else Ok(index)
      else if wireType == 3 then SkipGroup(s, t.next)
      else if wireType == 4 then Ok(t.next)
      else if wireType == 5 then Ok(t.next + 4)
      else Err(IllegalWireType(wireType))
  }

  /**
   * The group loop of `skipService` from index i: read the next tag; an
   * end-group tag finishes the group just after it, any other field is
   * measured by `skipService(s[start:])` and skipped.
   */
  function SkipGroup(s: seq<uint8>, i: nat): (r: Result<int, CodecError>)
    requires 0 < i && |s| <= MaxLen
    ensures r.Ok? ==> i < r.value < TWO_63
    decreases |s|, 0, if i < |s| then |s| - i else 0
  {
    match ReadVarint(s, i)
    case Err(e) => Err(e)
    case Ok(t) =>
      if t.value % 8 == 4 then Ok(t.next)
      else
        match SkipField(s[i..])
        case Err(e) => Err(e)
        case Ok(next) =>
          var index := Int64(i + next);
          if index < 0 then Err(InvalidLength) else SkipGroup(s, index)
  }

  /**
   * The `default:` branch of `Unmarshal` for a field starting at pre:
   * the skipped length and the end index are checked for being negative,
   * then against the input.
   */
  function Unknown(data: seq<uint8>, pre: nat): (r: Result<int, CodecError>)
    requires pre < |data| <= MaxLen
    ensures r.Ok? ==> pre < r.value <= |data|
    ensures r.Ok? ==> SkipField(data[pre..]) == Ok(r.value - pre)
  {
    match SkipField(data[pre..])
    case Err(e) => Err(e)
    case Ok(skippy) =>
      if skippy < 0 then Err(InvalidLength)
      else
        var end := Int64(pre + skippy);
        if end < 0 then Err(InvalidLength)
        else if end > |data| then Err(UnexpectedEof)
        else Ok(end)
  }

  /**
   * `skipService` as the source writes it: the tag loop, a switch on the
   * wire type, and for a group a loop that re-enters `skipService` on
   * the rest of the input for every field inside it. The varint loops
   * are the shared reading loop; the one for wire type 0 keeps no value
   * in the source, which does not change where it stops.
   */
  method SkipService(s: seq<uint8>) returns (r: Result<int, CodecError>)
    requires 0 < |s| <= MaxLen
    ensures r == SkipField(s)
    decreases |s|
  {
    var tag := DecodeVarint(s, 0);
    if tag.Err? {
      return Err(tag.error);
    }
    var i := tag.value.next;
    var wireType := tag.value.value % 8;
    if wireType == 0 {
      var v := DecodeVarint(s, i);
      if v.Err? {
        return Err(v.error);
      }
      return Ok(v.value.next);
    } else if wireType == 1 {
      return Ok(i + 8);
    } else if wireType == 2 {
      var len := DecodeVarint(s, i);
      if len.Err? {
        return Err(len.error);
      }
      var length := Int64(len.value.value);
      if length < 0 {
        return Err(InvalidLength);
      }
      var index := Int64(len.value.next + length);
      if index < 0 {
        return Err(InvalidLength);
      }
      return Ok(index);
    } else if wireType == 3 {
      while true
        invariant 0 < i && SkipGroup(s, i) == SkipField(s)
        decreases if i < |s| then |s| - i else 0
      {
        var start := i;
        var inner := DecodeVarint(s, start);
        if inner.Err? {
          return Err(inner.error);
        }
        i := inner.value.next;
        if inner.value.value % 8 == 4 {
          return Ok(i);
        }
        var next := SkipService(s[start..]);
        if next.Err? {
          return Err(next.error);
        }
        var index := Int64(start + next.value);
        if index < 0 {
          return Err(InvalidLength);
        }
        i := index;
      }
    } else if wireType == 4 {
      return Ok(i);
    } else if wireType == 5 {
      return Ok(i + 4);
    } else {
      return Err(IllegalWireType(wireType));
    }
  }

  /** The tag step at the top of every `Unmarshal` loop. */
  method DecodeTag(data: seq<uint8>, i: nat, message: string) returns (r: Result<Tag, CodecError>)
    ensures r == ReadTag(data, i, message)
  {
    var wire := DecodeVarint(data, i);
    if wire.Err? {
      return Err(wire.error);
    }
    var fieldNum := Int32(wire.value.value / 8);
    var wireType := wire.value.value % 8;
    if wireType == 4 {
      return Err(EndGroupForNonGroup(message));
    }
    if fieldNum <= 0 {
      return Err(IllegalTag(message, fieldNum, wire.value.value));
    }
    return Ok(Tag(wire.value.value, fieldNum, wireType, wire.value.next));
  }

  /** The length-prefix step of the Body and Signature branches. */
  method DecodeEmbedded(data: seq<uint8>, i: nat) returns (r: Result<Span, CodecError>)
    requires |data| <= MaxLen
    ensures r == Embedded(data, i)
  {
    var len := DecodeVarint(data, i);
    if len.Err? {
      return Err(len.error);
    }
    var msglen := Int64(len.value.value);
    if msglen < 0 {
      return Err(InvalidLength);
    }
    var postIndex := Int64(len.value.next + msglen);
    if postIndex < 0 {
      return Err(InvalidLength);
    }
    if postIndex > |data| {
      return Err(UnexpectedEof);
    }
    return Ok(Span(len.value.next, postIndex));
  }

  /** The `default:` branch: where the unknown field at pre ends. */
  method SkipUnknown(data: seq<uint8>, pre: nat) returns (r: Result<int, CodecError>)
    requires pre < |data| <= MaxLen
    ensures r == Unknown(data, pre)
  {
    var skippy := SkipService(data[pre..]);
    if skippy.Err? {
      return Err(skippy.error);
    }
    if skippy.value < 0 {
      return Err(InvalidLength);
    }
    var end := Int64(pre + skippy.value);
    if end < 0 {
      return Err(InvalidLength);
    }
    if end > |data| {
      return Err(UnexpectedEof);
    }
    return Ok(end);
  }

  // ------------------------------------------------------- encoded fields

  /** A field as it may appear among a message's unknown bytes. */
  datatype UnknownField =
    | VarintField(num: nat, value: uint64)
    | Fixed64Field(num: nat, bytes: seq<uint8>)
    | BytesField(num: nat, payload: seq<uint8>)
    | GroupField(num: nat, fields: seq<UnknownField>)
    | Fixed32Field(num: nat, bytes: seq<uint8>)

  /** Field numbers the protobuf format allows: 1 to 2^29 - 1. */
  predicate ValidNum(n: nat)
  {
    1 <= n < 0x2000_0000
  }

  predicate ValidField(f: UnknownField)
    decreases f
  {
    match f
    case VarintField(n, _) => ValidNum(n)
    case Fixed64Field(n, b) => ValidNum(n) && |b| == 8
    case BytesField(n, _) => ValidNum(n)
    case GroupField(n, fs) => ValidNum(n) && ValidFields(fs)
    case Fixed32Field(n, b) => ValidNum(n) && |b| == 4
  }

  predicate ValidFields(fs: seq<UnknownField>)
    decreases fs
  {
    fs == [] || (ValidField(fs[0]) && ValidFields(fs[1..]))
  }

  function WireTypeOf(f: UnknownField): (wt: nat)
    ensures wt < 8 && wt != 4
  {
    match f
    case VarintField(_, _) => 0
    case Fixed64Field(_, _) => 1
    case BytesField(_, _) => 2
    case GroupField(_, _) => 3
    case Fixed32Field(_, _) => 5
  }

  /** The key of a field: its number and wire type in one varint. */
  function Key(num: nat, wireType: nat): nat
  {
    num * 8 + wireType
  }

  function EncodeField(f: UnknownField): seq<uint8>
    decreases f, 1
  {
    VarintBytes(Key(f.num, WireTypeOf(f))) + Payload(f)
  }

  /** What follows the key: a varint, fixed bytes, a length and bytes, or nested fields and the end-group key. */
  function Payload(f: UnknownField): seq<uint8>
    decreases f, 0
  {
    match f
    case VarintField(_, v) => VarintBytes(v)
    case Fixed64Field(_, b) => b
    case BytesField(_, p) => VarintBytes(|p|) + p
    case GroupField(n, fs) => EncodeFields(fs) + VarintBytes(Key(n, 4))
    case Fixed32Field(_, b) => b
  }

  function EncodeFields(fs: seq<UnknownField>): seq<uint8>
    decreases fs
  {
    if fs == [] then [] else EncodeField(fs[0]) + EncodeFields(fs[1..])
  }

  // ---------------------------------------------------------------- lemmas

  lemma KeyArith(num: nat, wireType: nat)
    requires ValidNum(num) && wireType < 8
    ensures Key(num, wireType) < TWO_64 && Key(num, wireType) / 8 == num && Key(num, wireType) % 8 == wireType
    ensures Int32(num) == num
  {
  }

  /** What the tag step makes of a key once its varint has been read. */
  lemma ReadTagOk(data: seq<uint8>, i: nat, key: uint64, num: nat, wireType: nat, next: nat, message: string)
    requires ReadVarint(data, i) == Ok(VarintRead(key, next))
    requires key / 8 == num && key % 8 == wireType && wireType != 4 && Int32(num) == num && num > 0
    ensures ReadTag(data, i, message) == Ok(Tag(key, num, wireType, next))
  {
  }

  /** Reading a key at i gives back its field number and wire type. */
  lemma ReadTagEncoded(data: seq<uint8>, i: nat, num: nat, wireType: nat, message: string)
    requires ValidNum(num) && wireType < 8 && wireType != 4
    requires At(data, i, VarintBytes(Key(num, wireType)))
    ensures ReadTag(data, i, message) == Ok(Tag(Key(num, wireType), num, wireType, i + |VarintBytes(Key(num, wireType))|))
  {
    KeyArith(num, wireType);
    ReadVarintEncoded(data, i, Key(num, wireType));
    ReadTagOk(data, i, Key(num, wireType), num, wireType, i + |VarintBytes(Key(num, wireType))|, message);
  }

  lemma ValidFieldNum(f: UnknownField)
    requires ValidField(f)
    ensures ValidNum(f.num)
  {
    match f
    case VarintField(_, _) =>
    case Fixed64Field(_, _) =>
    case BytesField(_, _) =>
    case GroupField(_, _) =>
    case Fixed32Field(_, _) =>
  }

  /** The key of an encoded field is read back as its number and wire type. */
  lemma ReadTagOfField(data: seq<uint8>, i: nat, f: UnknownField, message: string)
    requires ValidField(f) && At(data, i, EncodeField(f))
    ensures ReadTag(data, i, message).Ok? && ReadTag(data, i, message).value.fieldNum == f.num
  {
    ValidFieldNum(f);
    AtSplit(data, i, VarintBytes(Key(f.num, WireTypeOf(f))), Payload(f));
    ReadTagEncoded(data, i, f.num, WireTypeOf(f), message);
  }

  /** An end-group key where a field should start is refused with the message's name. */
  lemma ReadTagEndGroup(data: seq<uint8>, i: nat, num: nat, message: string)
    requires ValidNum(num) && At(data, i, VarintBytes(Key(num, 4)))
    ensures ReadTag(data, i, message) == Err(EndGroupForNonGroup(message))
  {
    KeyArith(num, 4);
    ReadVarintEncoded(data, i, Key(num, 4));
  }

  /** A key with field number 0 is an illegal tag, reported with the whole key. */
  lemma ReadTagZero(data: seq<uint8>, i: nat, wireType: nat, message: string)
    requires wireType < 8 && wireType != 4 && At(data, i, VarintBytes(wireType))
    ensures ReadTag(data, i, message) == Err(IllegalTag(message, 0, wireType))
  {
    ReadVarintEncoded(data, i, wireType);
  }

  lemma EmbeddedOk(data: seq<uint8>, i: nat, len: uint64, next: nat)
    requires |data| <= MaxLen && ReadVarint(data, i) == Ok(VarintRead(len, next))
    requires len < TWO_63 && next + len <= |data|
    ensures Embedded(data, i) == Ok(Span(next, next + len))
  {
  }

  /** A length prefix followed by that many bytes is an embedded message lying exactly over those bytes. */
  lemma EmbeddedEncoded(data: seq<uint8>, i: nat, payload: seq<uint8>)
    requires |data| <= MaxLen && At(data, i, VarintBytes(|payload|) + payload)
    ensures Embedded(data, i) == Ok(Span(i + |VarintBytes(|payload|)|, i + |VarintBytes(|payload|)| + |payload|))
    ensures At(data, i + |VarintBytes(|payload|)|, payload)
  {
    AtSplit(data, i, VarintBytes(|payload|), payload);
    ReadVarintEncoded(data, i, |payload|);
    EmbeddedOk(data, i, |payload|, i + |VarintBytes(|payload|)|);
  }

  /** The same, with the indices of the payload given: where it starts and where it ends. */
  lemma EmbeddedAt(data: seq<uint8>, i: nat, payload: seq<uint8>, start: nat, end: nat)
    requires |data| <= MaxLen && At(data, i, VarintBytes(|payload|) + payload)
    requires start == i + |VarintBytes(|payload|)| && end == start + |payload|
    ensures Embedded(data, i) == Ok(Span(start, end)) && end <= |data| && data[start..end] == payload
  {
    EmbeddedEncoded(data, i, payload);
    assert Embedded(data, i) == Ok(Span(i + |VarintBytes(|payload|)|, i + |VarintBytes(|payload|)| + |payload|));
    AtSlice(data, start, payload);
  }

  /**
   * A length-delimited field whose key fits one byte: its key is read,
   * then its payload spans exactly the bytes that follow the length.
   */
  lemma KeyedEmbeddedAt(data: seq<uint8>, i: nat, key: uint8, num: nat, payload: seq<uint8>, message: string, n: nat, start: nat, end: nat)
    requires |data| <= MaxLen && ValidNum(num) && key < 0x80 && key as nat == Key(num, 2)
    requires At(data, i, [key] + (VarintBytes(|payload|) + payload))
    requires n == i + 1 && start == n + |VarintBytes(|payload|)| && end == start + |payload|
    ensures i < |data| && ReadTag(data, i, message) == Ok(Tag(Key(num, 2), num, 2, n))
    ensures Embedded(data, n) == Ok(Span(start, end)) && end <= |data| && data[start..end] == payload
  {
    assert VarintBytes(Key(num, 2)) == [key];
    AtSplit(data, i, [key], VarintBytes(|payload|) + payload);
    ReadTagEncoded(data, i, num, 2, message);
    assert i + |VarintBytes(Key(num, 2))| == n;
    EmbeddedAt(data, n, payload, start, end);
  }

  /**
   * The ways reading a key fails: an end-group key, a field number of 0,
   * a varint that does not end within ten bytes, and input that ends
   * inside the key.
   */
  lemma KeyErrors(data: seq<uint8>, i: nat, num: nat, wireType: nat, message: string)
    requires ValidNum(num) && wireType < 8 && wireType != 4
    ensures At(data, i, VarintBytes(Key(num, 4))) ==> ReadTag(data, i, message) == Err(EndGroupForNonGroup(message))
    ensures At(data, i, VarintBytes(wireType)) ==> ReadTag(data, i, message) == Err(IllegalTag(message, 0, wireType))
    ensures i + 10 <= |data| && (forall k | i <= k < i + 10 :: data[k] >= 0x80) ==> ReadTag(data, i, message) == Err(IntOverflow)
    ensures i <= |data| < i + 10 && (forall k | i <= k < |data| :: data[k] >= 0x80) ==> ReadTag(data, i, message) == Err(UnexpectedEof)
  {
    if At(data, i, VarintBytes(Key(num, 4))) {
      ReadTagEndGroup(data, i, num, message);
    }
    if At(data, i, VarintBytes(wireType)) {
      ReadTagZero(data, i, wireType, message);
    }
    if i + 10 <= |data| && (forall k | i <= k < i + 10 :: data[k] >= 0x80) {
      ReadVarintOverflows(data, i);
    }
    if i <= |data| < i + 10 && (forall k | i <= k < |data| :: data[k] >= 0x80) {
      ReadVarintRunsOut(data, i);
    }
  }

  /** A varint field whose key fits one byte: its key is read, then its value. */
  lemma KeyedVarintAt(data: seq<uint8>, i: nat, key: uint8, num: nat, v: uint64, message: string, n: nat, end: nat)
    requires ValidNum(num) && key < 0x80 && key as nat == Key(num, 0)
    requires At(data, i, [key] + VarintBytes(v))
    requires n == i + 1 && end == n + |VarintBytes(v)|
    ensures i < |data| && ReadTag(data, i, message) == Ok(Tag(Key(num, 0), num, 0, n))
    ensures ReadVarint(data, n) == Ok(VarintRead(v, end))
  {
    assert VarintBytes(Key(num, 0)) == [key];
    AtSplit(data, i, [key], VarintBytes(v));
    ReadTagEncoded(data, i, num, 0, message);
    assert i + |VarintBytes(Key(num, 0))| == n;
    ReadVarintEncoded(data, n, v);
  }

  /** A length prefix of 2^63 or more is negative as a Go `int`: ErrInvalidLengthService. */
  lemma EmbeddedNegative(data: seq<uint8>, i: nat, len: uint64)
    requires |data| <= MaxLen && TWO_63 <= len && At(data, i, VarintBytes(len))
    ensures Embedded(data, i) == Err(InvalidLength)
  {
    ReadVarintEncoded(data, i, len);
  }

  /**
   * A length prefix that promises more bytes than remain, with an end
   * index that stays below 2^63, gives io.ErrUnexpectedEOF.
   */
  lemma EmbeddedTruncated(data: seq<uint8>, i: nat, len: nat)
    requires |data| <= MaxLen && At(data, i, VarintBytes(len)) && |data| < i + |VarintBytes(len)| + len < TWO_63
    ensures Embedded(data, i) == Err(UnexpectedEof)
  {
    ReadVarintEncoded(data, i, len);
  }

  /**
   * A length below 2^63 whose end index `iNdEx + msglen` reaches 2^63
   * wraps negative as a Go `int`: ErrInvalidLengthService.
   */
  lemma EmbeddedEndWraps(data: seq<uint8>, i: nat, len: uint64)
    requires |data| <= MaxLen && len < TWO_63 && At(data, i, VarintBytes(len))
    requires TWO_63 <= i + |VarintBytes(len)| + len
    ensures Embedded(data, i) == Err(InvalidLength)
  {
    ReadVarintEncoded(data, i, len);
  }

  /**
   * `skipService` on a length-delimited field whose key and length
   * varints and payload take n bytes: a length negative as a Go `int`,
   * or one that makes `iNdEx += length` wrap negative (n reaching
   * 2^63), gives ErrInvalidLengthService; otherwise the field is
   * measured whole.
   */
  lemma SkipFieldLengthErrors(s: seq<uint8>, num: nat, len: uint64) returns (n: nat)
    requires ValidNum(num) && |s| <= MaxLen && At(s, 0, VarintBytes(Key(num, 2)) + VarintBytes(len))
    ensures |s| > 0 && n == |VarintBytes(Key(num, 2))| + |VarintBytes(len)| + len
    ensures TWO_63 <= n ==> SkipField(s) == Err(InvalidLength)
    ensures n < TWO_63 ==> SkipField(s) == Ok(n)
  {
    var key := Key(num, 2);
    var k := |VarintBytes(key)|;
    n := k + |VarintBytes(len)| + len;
    AtSplit(s, 0, VarintBytes(key), VarintBytes(len));
    KeyArith(num, 2);
    ReadVarintEncoded(s, 0, key);
    ReadVarintEncoded(s, k, len);
    if TWO_63 <= n {
      SkipWire2Negative(s, k);
    } else {
      SkipWire2(s, k, n);
    }
  }

  lemma SkipWire2Negative(s: seq<uint8>, next: nat)
    requires 0 < |s| <= MaxLen
    requires ReadVarint(s, 0).Ok? && ReadVarint(s, 0).value.value % 8 == 2 && ReadVarint(s, 0).value.next == next
    requires ReadVarint(s, next).Ok?
    requires TWO_63 <= ReadVarint(s, next).value.next + ReadVarint(s, next).value.value
    ensures SkipField(s) == Err(InvalidLength)
  {
  }

  lemma UnknownSkipError(data: seq<uint8>, pre: nat)
    requires pre < |data| <= MaxLen && SkipField(data[pre..]).Err?
    ensures Unknown(data, pre) == Err(SkipField(data[pre..]).error)
  {
  }

  lemma UnknownEndWraps(data: seq<uint8>, pre: nat, skippy: int)
    requires pre < |data| <= MaxLen && SkipField(data[pre..]) == Ok(skippy) && TWO_63 <= pre + skippy
    ensures Unknown(data, pre) == Err(InvalidLength)
  {
  }

  /**
   * The unknown-field branch on a length-delimited field at i: a length
   * negative as a Go `int`, or an end index that reaches 2^63 (inside
   * `skipService`, or in the caller's `iNdEx + skippy`), gives
   * ErrInvalidLengthService.
   */
  lemma UnknownLengthErrors(data: seq<uint8>, i: nat, num: nat, len: uint64)
    requires ValidNum(num) && |data| <= MaxLen && At(data, i, VarintBytes(Key(num, 2)) + VarintBytes(len))
    ensures i < |data|
    ensures TWO_63 <= len ==> Unknown(data, i) == Err(InvalidLength)
    ensures TWO_63 <= i + |VarintBytes(Key(num, 2))| + |VarintBytes(len)| + len ==> Unknown(data, i) == Err(InvalidLength)
  {
    AtDrop(data, i, i, VarintBytes(Key(num, 2)) + VarintBytes(len));
    var n := SkipFieldLengthErrors(data[i..], num, len);
    if TWO_63 <= n {
      UnknownSkipError(data, i);
    } else if TWO_63 <= i + n {
      UnknownEndWraps(data, i, n);
    }
  }

  // One lemma per wire type: what `skipService` returns once the key at 0 has been read.

  lemma SkipWire0(s: seq<uint8>, next: nat, n: int)
    requires 0 < |s| <= MaxLen
    requires ReadVarint(s, 0).Ok? && ReadVarint(s, 0).value.value % 8 == 0 && ReadVarint(s, 0).value.next == next
    requires ReadVarint(s, next).Ok? && ReadVarint(s, next).value.next == n
    ensures SkipField(s) == Ok(n)
  {
  }

  lemma SkipWire1(s: seq<uint8>, next: nat, n: int)
    requires 0 < |s| <= MaxLen
    requires ReadVarint(s, 0).Ok? && ReadVarint(s, 0).value.value % 8 == 1 && ReadVarint(s, 0).value.next == next
    requires n == next + 8
    ensures SkipField(s) == Ok(n)
  {
  }

  lemma SkipWire2(s: seq<uint8>, next: nat, n: int)
    requires 0 < |s| <= MaxLen
    requires ReadVarint(s, 0).Ok? && ReadVarint(s, 0).value.value % 8 == 2 && ReadVarint(s, 0).value.next == next
    requires ReadVarint(s, next).Ok? && ReadVarint(s, next).value.value < TWO_63
    requires n == ReadVarint(s, next).value.next + ReadVarint(s, next).value.value < TWO_63
    ensures SkipField(s) == Ok(n)
  {
  }

  lemma SkipWire3(s: seq<uint8>, next: nat)
    requires 0 < |s| <= MaxLen
    requires ReadVarint(s, 0).Ok? && ReadVarint(s, 0).value.value % 8 == 3 && ReadVarint(s, 0).value.next == next
    ensures 0 < next && SkipField(s) == SkipGroup(s, next)
  {
  }

  lemma SkipWire5(s: seq<uint8>, next: nat, n: int)
    requires 0 < |s| <= MaxLen
    requires ReadVarint(s, 0).Ok? && ReadVarint(s, 0).value.value % 8 == 5 && ReadVarint(s, 0).value.next == next
    requires n == next + 4
    ensures SkipField(s) == Ok(n)
  {
  }

  lemma SkipGroupEnd(s: seq<uint8>, i: nat, n: int)
    requires 0 < i && |s| <= MaxLen
    requires ReadVarint(s, i).Ok? && ReadVarint(s, i).value.value % 8 == 4 && ReadVarint(s, i).value.next == n
    ensures SkipGroup(s, i) == Ok(n)
  {
  }

  lemma SkipGroupStep(s: seq<uint8>, i: nat, k: nat, n: int)
    requires 0 < i < k <= |s| <= MaxLen
    requires ReadVarint(s, i).Ok? && ReadVarint(s, i).value.value % 8 != 4
    requires SkipField(s[i..]) == Ok(k - i)
    requires SkipGroup(s, k) == Ok(n)
    ensures SkipGroup(s, i) == Ok(n)
  {
  }

  /** `skipService` measures an encoded field exactly, whatever follows it. */
  lemma {:induction false} SkipFieldEncoded(s: seq<uint8>, f: UnknownField)
    requires ValidField(f) && |s| <= MaxLen && At(s, 0, EncodeField(f))
    ensures SkipField(s) == Ok(|EncodeField(f)|)
    decreases f, 1
  {
    var key := Key(f.num, WireTypeOf(f));
    var k := |VarintBytes(key)|;
    var n := |EncodeField(f)|;
    AtSplit(s, 0, VarintBytes(key), Payload(f));
    KeyArith(f.num, WireTypeOf(f));
    ReadVarintEncoded(s, 0, key);
    assert n == k + |Payload(f)|;
    match f
    case VarintField(_, v) =>
      ReadVarintEncoded(s, k, v);
      SkipWire0(s, k, n);
    case Fixed64Field(_, _) =>
      SkipWire1(s, k, n);
    case BytesField(_, p) =>
      AtSplit(s, k, VarintBytes(|p|), p);
      ReadVarintEncoded(s, k, |p|);
      SkipWire2(s, k, n);
    case GroupField(num, fs) =>
      SkipWire3(s, k);
      SkipGroupEncoded(s, k, fs, num, n);
    case Fixed32Field(_, _) =>
      SkipWire5(s, k, n);
  }

  /** The group loop stops just after the end-group key that follows the encoded fields. */
  lemma {:induction false} SkipGroupEncoded(s: seq<uint8>, i: nat, fs: seq<UnknownField>, num: nat, n: int)
    requires 0 < i && |s| <= MaxLen && ValidNum(num) && ValidFields(fs)
    requires At(s, i, EncodeFields(fs) + VarintBytes(Key(num, 4)))
    requires n == i + |EncodeFields(fs)| + |VarintBytes(Key(num, 4))|
    ensures SkipGroup(s, i) == Ok(n)
    decreases fs, 1
  {
    if fs == [] {
      assert EncodeFields(fs) + VarintBytes(Key(num, 4)) == VarintBytes(Key(num, 4));
      SkipGroupAtEnd(s, i, num, n);
    } else {
      SkipGroupAtField(s, i, fs, num, n);
    }
  }

  lemma SkipGroupAtEnd(s: seq<uint8>, i: nat, num: nat, n: int)
    requires 0 < i && |s| <= MaxLen && ValidNum(num)
    requires At(s, i, VarintBytes(Key(num, 4)))
    requires n == i + |VarintBytes(Key(num, 4))|
    ensures SkipGroup(s, i) == Ok(n)
  {
    KeyArith(num, 4);
    ReadVarintEncoded(s, i, Key(num, 4));
    SkipGroupEnd(s, i, n);
  }

  /** The fields of a group split into the first one and, from k on, the rest with the end-group key. */
  lemma GroupFirstField(s: seq<uint8>, i: nat, fs: seq<UnknownField>, num: nat) returns (k: nat)
    requires ValidFields(fs) && fs != [] && At(s, i, EncodeFields(fs) + VarintBytes(Key(num, 4)))
    ensures k == i + |EncodeField(fs[0])| && k + |EncodeFields(fs[1..])| == i + |EncodeFields(fs)|
    ensures ValidField(fs[0]) && ValidFields(fs[1..]) && At(s, i, EncodeField(fs[0]))
    ensures At(s, k, EncodeFields(fs[1..]) + VarintBytes(Key(num, 4)))
  {
    var e := EncodeField(fs[0]);
    var rest := EncodeFields(fs[1..]);
    var end := VarintBytes(Key(num, 4));
    AtSplit(s, i, EncodeFields(fs), end);
    assert EncodeFields(fs) == e + rest;
    AtSplit(s, i, e, rest);
    AtJoin(s, i + |e|, rest, end);
    k := i + |e|;
  }

  lemma {:induction false} SkipGroupAtField(s: seq<uint8>, i: nat, fs: seq<UnknownField>, num: nat, n: int)
    requires 0 < i && |s| <= MaxLen && ValidNum(num) && ValidFields(fs) && fs != []
    requires At(s, i, EncodeFields(fs) + VarintBytes(Key(num, 4)))
    requires n == i + |EncodeFields(fs)| + |VarintBytes(Key(num, 4))|
    ensures SkipGroup(s, i) == Ok(n)
    decreases fs, 0
  {
    var k := GroupFirstField(s, i, fs, num);
    SkipGroupEncoded(s, k, fs[1..], num, n);
    SkipGroupCons(s, i, fs[0], k, n);
  }

  /** One field of a group, ending at k: the loop goes on from there. */
  lemma SkipGroupCons(s: seq<uint8>, i: nat, f: UnknownField, k: nat, n: int)
    requires 0 < i && |s| <= MaxLen && ValidField(f) && At(s, i, EncodeField(f)) && k == i + |EncodeField(f)|
    requires SkipGroup(s, k) == Ok(n)
    ensures SkipGroup(s, i) == Ok(n)
    decreases f, 3
  {
    SkipFieldAt(s, i, f);
    SkipGroupStep(s, i, k, n);
  }

  /** An encoded field at i starts with a key that is not an end-group key, and `skipService` measures it. */
  lemma SkipFieldAt(s: seq<uint8>, i: nat, f: UnknownField)
    requires ValidField(f) && |s| <= MaxLen && At(s, i, EncodeField(f))
    ensures i < |s| && ReadVarint(s, i).Ok? && ReadVarint(s, i).value.value % 8 != 4
    ensures SkipField(s[i..]) == Ok(|EncodeField(f)|)
    decreases f, 2
  {
    var key: uint64 := Key(f.num, WireTypeOf(f));
    KeyArith(f.num, WireTypeOf(f));
    AtSplit(s, i, VarintBytes(key), Payload(f));
    ReadVarintEncoded(s, i, key);
    AtDrop(s, i, i, EncodeField(f));
    SkipFieldEncoded(s[i..], f);
  }

  /** An unknown field is kept whole: `Unmarshal` resumes right after it. */
  lemma UnknownEncoded(data: seq<uint8>, i: nat, f: UnknownField)
    requires ValidField(f) && |data| <= MaxLen && At(data, i, EncodeField(f))
    ensures Unknown(data, i) == Ok(i + |EncodeField(f)|)
  {
    AtDrop(data, i, i, EncodeField(f));
    SkipFieldEncoded(data[i..], f);
  }

  /** Wire types 6 and 7 do not exist: `skipService` refuses them. */
  lemma SkipFieldIllegal(s: seq<uint8>, num: nat, wireType: nat)
    requires ValidNum(num) && 6 <= wireType <= 7 && |s| <= MaxLen && At(s, 0, VarintBytes(Key(num, wireType)))
    ensures SkipField(s) == Err(IllegalWireType(wireType))
  {
    KeyArith(num, wireType);
    ReadVarintEncoded(s, 0, Key(num, wireType));
  }

  /** A fixed64 field cut short passes `skipService` but fails the caller's bound check. */
  lemma UnknownTruncatedFixed64(data: seq<uint8>, i: nat, num: nat)
    requires ValidNum(num) && |data| <= MaxLen && At(data, i, VarintBytes(Key(num, 1)))
    requires |data| < i + |VarintBytes(Key(num, 1))| + 8
    ensures Unknown(data, i) == Err(UnexpectedEof)
  {
    AtDrop(data, i, i, VarintBytes(Key(num, 1)));
    KeyArith(num, 1);
    ReadVarintEncoded(data[i..], 0, Key(num, 1));
  }

  // ------------------------------------------------- runs of unknown fields

  /** Unknown fields whose numbers are none of the message's own. */
  predicate Foreign(fs: seq<UnknownField>, known: set<nat>)
  {
    forall k | 0 <= k < |fs| :: fs[k].num !in known
  }

  lemma ForeignTail(fs: seq<UnknownField>, known: set<nat>)
    requires fs != [] && Foreign(fs, known)
    ensures fs[0].num !in known && Foreign(fs[1..], known)
  {
    forall k | 0 <= k < |fs| - 1
      ensures fs[1..][k].num !in known
    {
      assert fs[1..][k] == fs[k + 1];
    }
  }

  /**
   * data[i..j] is a run of whole fields that the message called
   * `message`, whose own field numbers are `known`, keeps as unknown
   * bytes: each tag reads, names another field, and `skipService`
   * measures the field within the run.
   */
  predicate UnknownRun(data: seq<uint8>, i: nat, j: nat, message: string, known: set<nat>)
    requires |data| <= MaxLen
    decreases if i <= j then j - i else 0
  {
    i == j
    || (i < j <= |data|
        && ReadTag(data, i, message).Ok? && ReadTag(data, i, message).value.fieldNum !in known
        && Unknown(data, i).Ok? && Unknown(data, i).value <= j
        && UnknownRun(data, Unknown(data, i).value, j, message, known))
  }

  /** One encoded field the message does not know is read as such and skipped whole. */
  lemma ForeignFieldSkips(data: seq<uint8>, i: nat, f: UnknownField, message: string)
    requires |data| <= MaxLen && ValidField(f) && At(data, i, EncodeField(f))
    ensures ReadTag(data, i, message).Ok? && ReadTag(data, i, message).value.fieldNum == f.num
    ensures Unknown(data, i) == Ok(i + |EncodeField(f)|)
  {
    ReadTagOfField(data, i, f, message);
    UnknownEncoded(data, i, f);
  }

  lemma UnknownRunCons(data: seq<uint8>, i: nat, k: nat, j: nat, message: string, known: set<nat>)
    requires |data| <= MaxLen && i < k <= j <= |data|
    requires ReadTag(data, i, message).Ok? && ReadTag(data, i, message).value.fieldNum !in known
    requires Unknown(data, i) == Ok(k) && UnknownRun(data, k, j, message, known)
    ensures UnknownRun(data, i, j, message, known)
  {
  }

  /** The first of several encoded foreign fields is read and skipped; the rest follow it from k on. */
  lemma FirstForeignField(data: seq<uint8>, i: nat, fs: seq<UnknownField>, message: string, known: set<nat>) returns (k: nat)
    requires |data| <= MaxLen && ValidFields(fs) && Foreign(fs, known) && At(data, i, EncodeFields(fs)) && fs != []
    ensures k == i + |EncodeField(fs[0])| && k + |EncodeFields(fs[1..])| == i + |EncodeFields(fs)|
    ensures At(data, k, EncodeFields(fs[1..]))
    ensures ValidFields(fs[1..]) && Foreign(fs[1..], known)
    ensures ReadTag(data, i, message).Ok? && ReadTag(data, i, message).value.fieldNum !in known
    ensures Unknown(data, i) == Ok(k)
  {
    var f := fs[0];
    var e := EncodeField(f);
    var rest := EncodeFields(fs[1..]);
    assert At(data, i, e) && At(data, i + |e|, rest) by {
      assert EncodeFields(fs) == e + rest;
      AtSplit(data, i, e, rest);
    }
    ForeignTail(fs, known);
    ForeignFieldSkips(data, i, f, message);
    k := i + |e|;
  }

  /** The encoding of valid fields with none of the message's numbers is a run of unknown fields. */
  lemma {:induction false} EncodedFieldsRun(data: seq<uint8>, i: nat, fs: seq<UnknownField>, j: nat, message: string, known: set<nat>)
    requires |data| <= MaxLen && ValidFields(fs) && Foreign(fs, known) && At(data, i, EncodeFields(fs))
    requires j == i + |EncodeFields(fs)|
    ensures UnknownRun(data, i, j, message, known)
    decreases fs
  {
    if fs != [] {
      var k := FirstForeignField(data, i, fs, message, known);
      EncodedFieldsRun(data, k, fs[1..], j, message, known);
      UnknownRunCons(data, i, k, j, message, known);
    }
  }
}
