/**
 * Base-128 varints of the generated codec: the size function
 * `sovService`, the writer `encodeVarintService` and the reading loop
 * that every `Unmarshal` repeats inline.
 */
module Varint {
  import opened GoInts
  import opened Wrappers
  import opened WireErrors
  import opened Buffers

  /** The encoding: 7-bit groups, least significant first, 0x80 set on every byte but the last. */
  function VarintBytes(v: nat): (r: seq<uint8>)
    ensures |r| == VarintLen(v)
    ensures r[|r| - 1] < 0x80
    decreases v
  {
    if v < 0x80 then [v] else [v % 0x80 + 0x80] + VarintBytes(v / 0x80)
  }

  /** Number of bytes of the encoding of v (what `sovService` computes). */
  function VarintLen(v: nat): (n: nat)
    ensures n >= 1
    ensures n == 1 <==> v < 0x80
    decreases v
  {
    if v < 0x80 then 1 else 1 + VarintLen(v / 0x80)
  }

  /** Result of reading one varint: its value and the index just after it. */
  datatype VarintRead = VarintRead(value: uint64, next: nat)

  /**
   * One pass of the source's reading loop at index i with the given shift
   * and accumulated value; the shift of the tenth byte drops everything
   * above bit 63.
   */
  function VarintFrom(data: seq<uint8>, i: nat, shift: nat, acc: uint64): Result<VarintRead, CodecError>
    decreases 64 - shift
  {
    if shift >= 64 then Err(IntOverflow)
    else if i >= |data| then Err(UnexpectedEof)
    else if data[i] < 0x80 then Ok(VarintRead(Accumulate(acc, data[i], shift), i + 1))
    else VarintFrom(data, i + 1, shift + 7, Accumulate(acc, data[i], shift))
  }

  /**
   * `acc | uint64(b&0x7F) << shift`, truncated to 64 bits. The reading
   * loop starts from 0 with shift 0 and keeps the accumulator below
   * 2^shift (AccumulateBound), so the bits are disjoint and the OR is an
   * addition.
   */
  function Accumulate(acc: uint64, b: uint8, shift: nat): uint64
  {
    (acc + Shl(b % 0x80, shift)) % TWO_64
  }

  /** Where a reading pass can end: inside the input, or with one of the two read errors. */
  lemma {:induction false} VarintFromBounds(data: seq<uint8>, i: nat, shift: nat, acc: uint64)
    ensures VarintFrom(data, i, shift, acc).Ok? ==> i < VarintFrom(data, i, shift, acc).value.next <= |data|
    ensures VarintFrom(data, i, shift, acc).Err? ==> (VarintFrom(data, i, shift, acc).error == UnexpectedEof || VarintFrom(data, i, shift, acc).error == IntOverflow)
    decreases 64 - shift
  {
    if shift < 64 && i < |data| && data[i] >= 0x80 {
      VarintFromBounds(data, i + 1, shift + 7, Accumulate(acc, data[i], shift));
    }
  }

  lemma AccumulateBound(acc: nat, b: uint8, shift: nat)
    requires acc < Pow2(shift)
    ensures (acc + Shl(b % 0x80, shift)) % TWO_64 < Pow2(shift + 7)
  {
    ShlIsMul(b % 0x80, shift);
    var p := Pow2(shift);
    var d := b % 0x80;
    MulLe(d, 127, p);
    var x := acc + d * p;
    assert x < 128 * p;
    ModLe(x, TWO_64);
    Pow2Add(shift, 7);
    Pow2Constants();
  }

  /** A varint read starting at index i of data. */
  function ReadVarint(data: seq<uint8>, i: nat): (r: Result<VarintRead, CodecError>)
    ensures r.Ok? ==> i < r.value.next <= |data|
    ensures r.Err? ==> r.error == UnexpectedEof || r.error == IntOverflow
  {
    VarintFromBounds(data, i, 0, 0);
    VarintFrom(data, i, 0, 0)
  }

  /** `sovService`: the loop counts groups until the shifted value is zero. */
  method SovService(x0: uint64) returns (n: nat)
    ensures n == VarintLen(x0) == |VarintBytes(x0)|
    ensures 1 <= n <= 10
    ensures x0 == 0 ==> n == 1
  {
    var x := x0;
    n := 0;
    while true
      invariant n + VarintLen(x) == VarintLen(x0)
      decreases x
    {
      n := n + 1;
      var shifted := x / 0x80;
      if shifted == 0 {
        break;
      }
      x := shifted;
    }
    VarintLenAtMostTen(x0);
  }

  /**
   * `encodeVarintService`: writes the encoding of v at offset and returns
   * the index after it; nothing else in the buffer changes.
   */
  method EncodeVarintService(a: array<uint8>, offset: nat, v: uint64) returns (end: nat)
    requires offset + |VarintBytes(v)| <= a.Length
    modifies a
    ensures end == offset + |VarintBytes(v)|
    ensures a[..] == Splice(old(a[..]), offset, VarintBytes(v))
  {
    ghost var before := a[..];
    ghost var written: seq<uint8> := [];
    var x: nat := v;
    var o: nat := offset;
    SpliceEmpty(before, offset);
    while x >= 0x80
      invariant o == offset + |written| && written + VarintBytes(x) == VarintBytes(v)
      invariant a[..] == Splice(before, offset, written)
      decreases x
    {
      var b: uint8 := x % 0x80 + 0x80;
      EncodeNext(written, v, x, b);
      SpliceExtend(before, offset, written, b);
      a[o] := b;
      assert a[..] == Splice(before, offset, written)[o := b];
      written := written + [b];
      x := x / 0x80;
      o := o + 1;
    }
    EncodeNext(written, v, x, x);
    SpliceExtend(before, offset, written, x);
    a[o] := x;
    assert a[..] == Splice(before, offset, written)[o := x];
    end := o + 1;
  }

  /** One byte of the writer: the next byte of the encoding follows those already written. */
  lemma EncodeNext(written: seq<uint8>, v: nat, x: nat, b: uint8)
    requires written + VarintBytes(x) == VarintBytes(v)
    requires b == if x >= 0x80 then x % 0x80 + 0x80 else x
    ensures |written| < |VarintBytes(v)|
    ensures x >= 0x80 ==> (written + [b]) + VarintBytes(x / 0x80) == VarintBytes(v)
    ensures x < 0x80 ==> written + [b] == VarintBytes(v)
  {
    if x >= 0x80 {
      assert VarintBytes(x) == [b] + VarintBytes(x / 0x80);
      assert (written + [b]) + VarintBytes(x / 0x80) == written + ([b] + VarintBytes(x / 0x80));
    } else {
      assert VarintBytes(x) == [b];
    }
  }

  /**
   * The reading loop, written as the source writes it inline: a `for`
   * over the shift with the overflow test first and the end-of-input
   * test second.
   */
  method DecodeVarint(data: seq<uint8>, start: nat) returns (r: Result<VarintRead, CodecError>)
    ensures r == ReadVarint(data, start)
  {
    var i := start;
    var shift: nat := 0;
    var acc: uint64 := 0;
    while true
      invariant start <= i
      invariant VarintFrom(data, i, shift, acc) == ReadVarint(data, start)
      decreases 64 - shift
    {
      if shift >= 64 {
        return Err(IntOverflow);
      }
      if i >= |data| {
        return Err(UnexpectedEof);
      }
      var b := data[i];
      i := i + 1;
      acc := Accumulate(acc, b, shift);
      if b < 0x80 {
        return Ok(VarintRead(acc, i));
      }
      shift := shift + 7;
    }
  }

  // ---------------------------------------------------------------- lemmas

  /** Every byte of an encoding but the last carries the continuation bit 0x80. */
  lemma {:induction false} VarintBytesContinue(v: nat)
    ensures forall k | 0 <= k < |VarintBytes(v)| - 1 :: VarintBytes(v)[k] >= 0x80
    decreases v
  {
    if v >= 0x80 {
      VarintBytesContinue(v / 0x80);
      var r := VarintBytes(v);
      assert r == [v % 0x80 + 0x80] + VarintBytes(v / 0x80);
      forall k | 0 <= k < |r| - 1
        ensures r[k] >= 0x80
      {
        if k > 0 {
          assert r[k] == VarintBytes(v / 0x80)[k - 1];
        }
      }
    }
  }

  lemma {:induction false} VarintLenBelow(v: nat, k: nat)
    requires k >= 1 && v < Pow2(7 * k)
    ensures VarintLen(v) <= k
    decreases k
  {
    if v >= 0x80 {
      Pow2Add(7, 7 * (k - 1));
      Pow2Constants();
      if k == 1 {
        assert false;
      }
      VarintLenBelow(v / 0x80, k - 1);
    }
  }

  /** Every uint64 takes between one and ten bytes; zero takes one. */
  lemma VarintLenAtMostTen(v: uint64)
    ensures 1 <= VarintLen(v) <= 10
    ensures v == 0 ==> VarintLen(v) == 1
  {
    Pow2Add(64, 6);
    Pow2Constants();
    VarintLenBelow(v, 10);
  }

  /** The ten-byte bound is reached: the largest uint64 needs all ten bytes. */
  lemma VarintLenOfMax()
    ensures VarintLen(TWO_64 - 1) == 10
  {
    assert VarintLen(0x1) == 1;
    assert VarintLen(0xff) == 2;
    assert VarintLen(0x7fff) == 3;
    assert VarintLen(0x3fffff) == 4;
    assert VarintLen(0x1fffffff) == 5;
    assert VarintLen(0xfffffffff) == 6;
    assert VarintLen(0x7ffffffffff) == 7;
    assert VarintLen(0x3ffffffffffff) == 8;
    assert VarintLen(0x1ffffffffffffff) == 9;
    assert VarintLen(0xffffffffffffffff) == 10;
  }

  lemma AccumulateExact(acc: uint64, b: uint8, shift: nat)
    requires acc < Pow2(shift) && acc + (b % 0x80) * Pow2(shift) < TWO_64
    ensures Accumulate(acc, b, shift) == acc + (b % 0x80) * Pow2(shift)
  {
    ShlIsMul(b % 0x80, shift);
    ModSmall(acc + (b % 0x80) * Pow2(shift), TWO_64);
  }

  lemma SplitLowGroup(w: nat, p: nat)
    ensures w * p == (w / 0x80) * (0x80 * p) + (w % 0x80) * p
  {
    var q, r := w / 0x80, w % 0x80;
    assert w == q * 0x80 + r;
    calc {
      w * p;
      (q * 0x80 + r) * p;
      q * 0x80 * p + r * p;
      q * (0x80 * p) + r * p;
    }
  }

  /** The arithmetic of one continuation byte, over an abstract power p of two. */
  lemma StepArith(acc: nat, w: nat, p: nat, v: nat)
    requires acc < p && v == acc + w * p && w >= 0x80
    ensures v == (acc + (w % 0x80) * p) + (w / 0x80) * (0x80 * p)
    ensures 0x80 * p <= v
    ensures acc + (w % 0x80) * p <= v
  {
    SplitLowGroup(w, p);
    MulLe(1, w / 0x80, 0x80 * p);
  }

  lemma Pow2Step(shift: nat)
    ensures Pow2(shift + 7) == 0x80 * Pow2(shift)
  {
    Pow2Add(shift, 7);
    Pow2Seven();
  }

  /**
   * The arithmetic of one continuation byte: if acc holds the low bits of v
   * and w the rest, then after the byte the next group of w has moved
   * into acc, and a shift of 64 is never reached.
   */
  lemma DecodeStepArith(shift: nat, acc: uint64, w: nat, v: uint64)
    requires shift <= 63 && acc < Pow2(shift) && v == acc + w * Pow2(shift) && w >= 0x80
    ensures shift + 7 <= 63
    ensures Accumulate(acc, w % 0x80 + 0x80, shift) == acc + (w % 0x80) * Pow2(shift)
    ensures v == Accumulate(acc, w % 0x80 + 0x80, shift) + (w / 0x80) * Pow2(shift + 7)
  {
    var p := Pow2(shift);
    Pow2Step(shift);
    StepArith(acc, w, p, v);
    if shift + 7 > 63 {
      Pow2Constants();
      Pow2Monotone(64, shift + 7);
      assert false;
    }
    var b: uint8 := w % 0x80 + 0x80;
    assert b % 0x80 == w % 0x80;
    AccumulateExact(acc, b, shift);
  }

  lemma DecodeLastArith(shift: nat, acc: uint64, w: nat, v: uint64)
    requires shift <= 63 && acc < Pow2(shift) && v == acc + w * Pow2(shift) && w < 0x80
    ensures Accumulate(acc, w, shift) == v
  {
    assert w % 0x80 == w;
    AccumulateExact(acc, w, shift);
  }

  /** The first byte of an encoding found at i, and where the rest of it lies. */
  lemma VarintAtSplit(data: seq<uint8>, i: nat, w: nat)
    requires At(data, i, VarintBytes(w))
    ensures i < |data|
    ensures w < 0x80 ==> data[i] == w
    ensures w >= 0x80 ==> data[i] == w % 0x80 + 0x80 && At(data, i + 1, VarintBytes(w / 0x80))
  {
    if w < 0x80 {
      assert VarintBytes(w) == [w];
      AtOne(data, i, w);
    } else {
      var b: uint8 := w % 0x80 + 0x80;
      assert VarintBytes(w) == [b] + VarintBytes(w / 0x80);
      AtSplit(data, i, [b], VarintBytes(w / 0x80));
      AtOne(data, i, b);
    }
  }

  lemma {:induction false} VarintFromEncoded(data: seq<uint8>, i: nat, shift: nat, acc: uint64, w: nat, v: uint64)
    requires shift <= 63 && acc < Pow2(shift) && v == acc + w * Pow2(shift)
    requires At(data, i, VarintBytes(w))
    ensures VarintFrom(data, i, shift, acc) == Ok(VarintRead(v, i + |VarintBytes(w)|))
    decreases w
  {
    VarintAtSplit(data, i, w);
    if w < 0x80 {
      DecodeLastArith(shift, acc, w, v);
    } else {
      DecodeStepArith(shift, acc, w, v);
      AccumulateBound(acc, data[i], shift);
      VarintFromEncoded(data, i + 1, shift + 7, Accumulate(acc, data[i], shift), w / 0x80, v);
    }
  }

  /** Round trip: reading the encoding of v at i gives v and the index after the encoding. */
  lemma ReadVarintEncoded(data: seq<uint8>, i: nat, v: uint64)
    requires At(data, i, VarintBytes(v))
    ensures ReadVarint(data, i) == Ok(VarintRead(v, i + |VarintBytes(v)|))
  {
    VarintFromEncoded(data, i, 0, 0, v, v);
  }

  lemma {:induction false} VarintFromRunsOut(data: seq<uint8>, i: nat, shift: nat, acc: uint64)
    requires i <= |data| && shift + 7 * (|data| - i) < 64
    requires forall k | i <= k < |data| :: data[k] >= 0x80
    ensures VarintFrom(data, i, shift, acc) == Err(UnexpectedEof)
    decreases |data| - i
  {
    if i < |data| {
      VarintFromRunsOut(data, i + 1, shift + 7, Accumulate(acc, data[i], shift));
    }
  }

  /** Input that ends while every remaining byte says "continue" gives io.ErrUnexpectedEOF. */
  lemma ReadVarintRunsOut(data: seq<uint8>, i: nat)
    requires i <= |data| < i + 10
    requires forall k | i <= k < |data| :: data[k] >= 0x80
    ensures ReadVarint(data, i) == Err(UnexpectedEof)
  {
    VarintFromRunsOut(data, i, 0, 0);
  }

  lemma {:induction false} VarintFromOverflows(data: seq<uint8>, i: nat, shift: nat, acc: uint64, m: nat)
    requires shift + 7 * m >= 64 && i + m <= |data|
    requires forall k | i <= k < i + m :: data[k] >= 0x80
    ensures VarintFrom(data, i, shift, acc) == Err(IntOverflow)
    decreases m
  {
    if shift < 64 {
      VarintFromOverflows(data, i + 1, shift + 7, Accumulate(acc, data[i], shift), m - 1);
    }
  }

  /** Ten continuation bytes in a row need a shift of 64 or more: ErrIntOverflowService. */
  lemma ReadVarintOverflows(data: seq<uint8>, i: nat)
    requires i + 10 <= |data|
    requires forall k | i <= k < i + 10 :: data[k] >= 0x80
    ensures ReadVarint(data, i) == Err(IntOverflow)
  {
    VarintFromOverflows(data, i, 0, 0, 10);
  }
}
