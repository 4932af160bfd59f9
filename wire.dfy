/**
 * The base-128 varint layer of the generated metapb codec: Go's machine integer
 * types, the varint writer (encodeVarintMetapb), the varint size (sovMetapb), and
 * the varint reading loop that every Unmarshal function and skipMetapb inline.
 */
module Wire {
  import opened Common

  const TWO_32: int := 0x1_0000_0000
  const TWO_63: int := 0x8000_0000_0000_0000
  const TWO_64: int := 0x1_0000_0000_0000_0000

  type byte = x: int | 0 <= x < 0x100
  type uint32 = x: int | 0 <= x < 0x1_0000_0000
  type uint64 = x: int | 0 <= x < 0x1_0000_0000_0000_0000
  type int32 = x: int | -0x8000_0000 <= x < 0x8000_0000
  type int64 = x: int | -0x8000_0000_0000_0000 <= x < 0x8000_0000_0000_0000

  /** Go's int(u) (and int64(u)) of a uint64: the same 64 bits read as two's complement. */
  function Signed64(u: uint64): int64
  {
    if u < TWO_63 then u else u - TWO_64
  }

  /** Go's int32(u) of a uint32: the same 32 bits read as two's complement. */
  function Signed32(u: uint32): int32
  {
    if u < 0x8000_0000 then u else u - TWO_32
  }

  /** Go's int32(x) of a wider integer: keep the low 32 bits, read as two's complement. */
  function Int32Of(x: nat): int32
  {
    Signed32(x % TWO_32)
  }

  /** Go's uint64(x) of an int32: sign extension to 64 bits. */
  function Uint64OfInt32(x: int32): uint64
  {
    if x < 0 then x + TWO_64 else x
  }

  /** Go's int addition: the exact sum, wrapped to 64-bit two's complement when it leaves the range. */
  function AddInt(a: int64, b: int64): (r: int64)
    ensures -TWO_63 <= a + b < TWO_63 ==> r == a + b
    ensures a + b >= TWO_63 ==> r == a + b - TWO_64
  {
    Signed64((a + b) % TWO_64)
  }

  lemma {:induction false} Int32Uint64RoundTrip(x: int32)
    ensures Signed32(Uint64OfInt32(x) % TWO_32) == x
  {
    if x < 0 {
      assert (x + TWO_64) % TWO_32 == x + TWO_32;
    }
  }

  /** 128 to the power n, that is 2^(7n). */
  function Pow128(n: nat): (r: nat)
    ensures r >= 1
  {
    if n == 0 then 1 else 128 * Pow128(n - 1)
  }

  lemma {:induction false} Pow128Monotonic(a: nat, b: nat)
    requires a <= b
    ensures Pow128(a) <= Pow128(b)
    decreases b - a
  {
    if a < b {
      Pow128Monotonic(a, b - 1);
    }
  }

  lemma Pow128Nine()
    ensures Pow128(9) == TWO_63 && Pow128(10) > TWO_64
  {
  }

  /** The errors of the decoding side. */
  datatype DecodeError =
    | IntOverflow                                     // ErrIntOverflowMetapb
    | InvalidLength                                   // ErrInvalidLengthMetapb
    | UnexpectedEOF                                   // io.ErrUnexpectedEOF
    | EndGroupForNonGroup(message: string)            // "wiretype end group for non-group"
    | IllegalTag(message: string, fieldNum: int, wire: int)
    | WrongWireType(field: string, wireType: int)
    | IllegalWireType(wireType: int)                  // skipMetapb, wire types 6 and 7

  /**
   * The bytes encodeVarintMetapb writes for v: 7-bit groups, least significant first,
   * the high bit set on every byte but the last.
   */
  function VarintBytes(v: nat): seq<byte>
    decreases v
  {
    if v < 128 then [v] else [v % 128 + 128] + VarintBytes(v / 128)
  }

  /** The shape of a varint, and its length as the smallest n with v < 2^(7n). */
  lemma {:induction false} VarintBytesShape(v: nat)
    ensures var r := VarintBytes(v);
      && 1 <= |r|
      && r[|r| - 1] < 128
      && (forall j :: 0 <= j < |r| - 1 ==> r[j] >= 128)
      && v < Pow128(|r|)
      && (|r| == 1 || Pow128(|r| - 1) <= v)
    decreases v
  {
    if v >= 128 {
      var r, t := VarintBytes(v), VarintBytes(v / 128);
      VarintBytesShape(v / 128);
      assert r == [v % 128 + 128] + t;
      assert r[|r| - 1] == t[|t| - 1];
      forall j | 0 <= j < |r| - 1
        ensures r[j] >= 128
      {
        if j > 0 {
          assert r[j] == t[j - 1];
        }
      }
      assert Pow128(|r|) == 128 * Pow128(|t|);
      assert |t| == 1 || Pow128(|t|) == 128 * Pow128(|t| - 1);
    }
  }

  /** A value that fits in 64 bits takes at most ten varint bytes. */
  lemma VarintBytesAtMostTen(v: uint64)
    ensures |VarintBytes(v)| <= 10
  {
    VarintBytesShape(v);
    var n := |VarintBytes(v)|;
    if n > 10 {
      Pow128Nine();
      Pow128Monotonic(10, n - 1);
    }
  }

  /** sovMetapb: the number of bytes encodeVarintMetapb writes for x. */
  method SovMetapb(x: uint64) returns (n: nat)
    ensures n == |VarintBytes(x)|
    ensures 1 <= n <= 10 && x < Pow128(n) && (n == 1 || Pow128(n - 1) <= x)
  {
    n := 0;
    var y: nat := x;
    while true
      invariant n + |VarintBytes(y)| == |VarintBytes(x)|
      decreases y
    {
      n := n + 1;
      y := y / 128;
      if y == 0 {
        break;
      }
    }
    VarintBytesShape(x);
    VarintBytesAtMostTen(x);
  }

  /** The bytes of s with the |b| bytes from index at replaced by b: what a write into a buffer leaves. */
  function Splice(s: seq<byte>, at: nat, b: seq<byte>): seq<byte>
    requires at + |b| <= |s|
  {
    s[..at] + b + s[at + |b|..]
  }

  /** After a splice, the written range holds b and the bytes around it are untouched. */
  lemma SpliceParts(s: seq<byte>, at: nat, b: seq<byte>)
    requires at + |b| <= |s|
    ensures |Splice(s, at, b)| == |s|
    ensures Splice(s, at, b)[at..at + |b|] == b
    ensures Splice(s, at, b)[..at] == s[..at] && Splice(s, at, b)[at + |b|..] == s[at + |b|..]
  {
  }

  /** What sits at index i of data, split in two. */
  lemma SliceParts(data: seq<byte>, i: nat, a: seq<byte>, b: seq<byte>)
    requires i <= |data| && data[i..] == a + b
    ensures i + |a| <= |data| && data[i..i + |a|] == a && data[i + |a|..] == b
  {
    assert data[i..][..|a|] == a;
    assert data[i..][|a|..] == b;
  }

  /** What sits at index i of data, with the first of three parts stepped over. */
  lemma SliceFirstOfThree(data: seq<byte>, i: nat, a: seq<byte>, b: seq<byte>, c: seq<byte>)
    requires i <= |data| && data[i..] == a + b + c
    ensures i + |a| <= |data| && data[i..i + |a|] == a && data[i + |a|..] == b + c
  {
    assert a + b + c == a + (b + c);
    SliceParts(data, i, a, b + c);
  }

  /** What sits at index i of data, with the first of four parts stepped over. */
  lemma SliceFirstOfFour(data: seq<byte>, i: nat, a: seq<byte>, b: seq<byte>, c: seq<byte>, d: seq<byte>)
    requires i <= |data| && data[i..] == a + b + c + d
    ensures i + |a| <= |data| && data[i + |a|..] == b + c + d
  {
    assert a + b + c + d == a + (b + c + d);
    SliceParts(data, i, a, b + c + d);
  }

  /** Writing nothing leaves the buffer as it was. */
  lemma SpliceEmpty(s: seq<byte>, at: nat)
    requires at <= |s|
    ensures Splice(s, at, []) == s
  {
    assert s[..at] + s[at..] == s;
  }

  /** Two adjacent writes are one write of their concatenation. */
  lemma SpliceTwice(s: seq<byte>, at: nat, b: seq<byte>, c: seq<byte>)
    requires at + |b| + |c| <= |s|
    ensures at + |b| + |c| <= |Splice(s, at, b)|
    ensures Splice(Splice(s, at, b), at + |b|, c) == Splice(s, at, b + c)
  {
    var t := Splice(s, at, b);
    assert t[..at + |b|] == s[..at] + b;
    assert t[at + |b| + |c|..] == s[at + |b| + |c|..];
  }

  /** Writing one more byte just past a written range extends the range. */
  lemma SpliceStep(s: seq<byte>, at: nat, w: seq<byte>, b: byte)
    requires at + |w| + 1 <= |s|
    ensures Splice(s, at, w)[at + |w| := b] == Splice(s, at, w + [b])
  {
  }

  /** The varint of x >= 128 written after `written` continues with its low group. */
  lemma VarintWrittenNext(written: seq<byte>, x: nat, v: nat)
    requires x >= 128 && written + VarintBytes(x) == VarintBytes(v)
    ensures |written| + 1 < |VarintBytes(v)|
    ensures (written + [x % 128 + 128]) + VarintBytes(x / 128) == VarintBytes(v)
  {
    assert VarintBytes(x) == [x % 128 + 128] + VarintBytes(x / 128);
  }

  /** The varint of x < 128 written after `written` ends with x. */
  lemma VarintWrittenLast(written: seq<byte>, x: nat, v: nat)
    requires x < 128 && written + VarintBytes(x) == VarintBytes(v)
    ensures |written| + 1 == |VarintBytes(v)| && written + [x] == VarintBytes(v)
  {
  }

  /**
   * encodeVarintMetapb: writes VarintBytes(v) into data at offset and returns the index
   * after it; nothing else in data changes.
   */
  method EncodeVarintMetapb(data: array<byte>, offset: nat, v: uint64) returns (next: nat)
    requires offset + |VarintBytes(v)| <= data.Length
    modifies data
    ensures next == offset + |VarintBytes(v)|
    ensures data[..] == Splice(old(data[..]), offset, VarintBytes(v))
  {
    ghost var before := data[..];
    ghost var written: seq<byte> := [];
    var x: nat := v;
    next := offset;
    while x >= 128
      invariant next == offset + |written| && written + VarintBytes(x) == VarintBytes(v)
      invariant data[..] == Splice(before, offset, written)
      decreases x
    {
      VarintWrittenNext(written, x, v);
      SpliceStep(before, offset, written, x % 128 + 128);
      data[next] := x % 128 + 128;
      written := written + [x % 128 + 128];
      x := x / 128;
      next := next + 1;
    }
    VarintWrittenLast(written, x, v);
    SpliceStep(before, offset, written, x);
    data[next] := x;
    written := written + [x];
    next := next + 1;
  }

  /**
   * The varint loop inlined by every Unmarshal and by skipMetapb, from index i with
   * k groups already read (shift = 7k). Go ORs (b & 0x7F) << shift into a uint64;
   * the groups occupy disjoint bits, so the OR is the sum of the groups, and the
   * bits shifted past bit 63 are dropped, which is the sum taken modulo 2^64.
   */
  function ReadVarintFrom(data: seq<byte>, i: nat, k: nat, acc: nat): (r: Result<(uint64, nat), DecodeError>)
    ensures r.Ok? ==> i < r.value.1 <= |data| && r.value.1 + k <= i + 10
    decreases 10 - k, 1
  {
    if 7 * k >= 64 then Err(IntOverflow)
    else if i >= |data| then Err(UnexpectedEOF)
    else ReadVarintByte(data, i, k, acc)
  }

  /** One pass of the varint loop's body: byte i is the group at shift 7k. */
  function ReadVarintByte(data: seq<byte>, i: nat, k: nat, acc: nat): (r: Result<(uint64, nat), DecodeError>)
    requires 7 * k < 64 && i < |data|
    ensures r.Ok? ==> i < r.value.1 <= |data| && r.value.1 + k <= i + 10
    decreases 10 - k, 0
  {
    var b := data[i];
    var acc' := acc + Shifted(b % 128, k);
    if b < 128 then Ok((acc' % TWO_64, i + 1))
    else ReadVarintFrom(data, i + 1, k + 1, acc')
  }

  /** The value of the varint at index i and the index after it. */
  function ReadVarint(data: seq<byte>, i: nat): (r: Result<(uint64, nat), DecodeError>)
    ensures r.Ok? ==> i < r.value.1 <= |data| && r.value.1 <= i + 10
  {
    ReadVarintFrom(data, i, 0, 0)
  }

  /** The varint reading loop, as the Unmarshal functions run it. */
  method DecodeVarint(data: seq<byte>, start: nat) returns (r: Result<(uint64, nat), DecodeError>)
    ensures r == ReadVarint(data, start)
  {
    var i: nat := start;
    var shift: nat := 0;
    var acc: nat := 0;
    while true
      invariant shift % 7 == 0 && shift <= 70
      invariant ReadVarint(data, start) == ReadVarintFrom(data, i, shift / 7, acc)
      decreases 70 - shift
    {
      if shift >= 64 {
        return Err(IntOverflow);
      }
      if i >= |data| {
        return Err(UnexpectedEOF);
      }
      var b := data[i];
      i := i + 1;
      acc := acc + Shifted(b % 128, shift / 7);
      if b < 128 {
        return Ok((acc % TWO_64, i));
      }
      shift := shift + 7;
    }
  }

  /** x << 7k on unbounded integers: a 7-bit group placed at group position k. */
  function Shifted(x: nat, k: nat): nat
  {
    if k == 0 then x else 128 * Shifted(x, k - 1)
  }

  lemma {:induction false} ShiftedAdd(x: nat, y: nat, k: nat)
    ensures Shifted(x, k) + Shifted(y, k) == Shifted(x + y, k)
  {
    if k > 0 {
      ShiftedAdd(x, y, k - 1);
    }
  }

  lemma {:induction false} ShiftedNext(x: nat, k: nat)
    ensures Shifted(128 * x, k) == Shifted(x, k + 1)
  {
    if k > 0 {
      ShiftedNext(x, k - 1);
    }
  }

  /** The low group of w at position k plus the rest of w one position up is w at position k. */
  lemma GroupSplit(w: nat, k: nat)
    ensures Shifted(w % 128, k) + Shifted(w / 128, k + 1) == Shifted(w, k)
  {
    ShiftedNext(w / 128, k);
    ShiftedAdd(w % 128, 128 * (w / 128), k);
  }

  lemma {:induction false} ReadVarintFromBytes(data: seq<byte>, i: nat, k: nat, acc: nat, w: nat)
    requires i + |VarintBytes(w)| <= |data| && data[i..i + |VarintBytes(w)|] == VarintBytes(w)
    requires k + |VarintBytes(w)| <= 10
    ensures ReadVarintFrom(data, i, k, acc) == Ok(((acc + Shifted(w, k)) % TWO_64, i + |VarintBytes(w)|))
    decreases w
  {
    if w >= 128 {
      VarintHead(data, i, w);
      ReadVarintFromBytes(data, i + 1, k + 1, acc + Shifted(w % 128, k), w / 128);
      ReadVarintFromGroups(data, i, k, acc, w, i + 1 + |VarintBytes(w / 128)|);
    } else {
      VarintLastByte(data, i, w);
      ReadVarintFromLast(data, i, k, acc);
    }
  }

  /** A continuation byte holding the low group of w, then the rest of w read from the next byte, is w read from here. */
  lemma ReadVarintFromGroups(data: seq<byte>, i: nat, k: nat, acc: nat, w: nat, end: nat)
    requires 7 * k < 64 && i < |data| && w >= 128 && data[i] == w % 128 + 128
    requires ReadVarintFrom(data, i + 1, k + 1, acc + Shifted(w % 128, k))
          == Ok(((acc + Shifted(w % 128, k) + Shifted(w / 128, k + 1)) % TWO_64, end))
    ensures ReadVarintFrom(data, i, k, acc) == Ok(((acc + Shifted(w, k)) % TWO_64, end))
  {
    ReadVarintFromGroup(data, i, k, acc, w % 128);
    GroupSum(acc, w, k);
  }

  /** The running value after the low group of w and then the rest of w is the running value after w. */
  lemma GroupSum(acc: nat, w: nat, k: nat)
    ensures (acc + Shifted(w % 128, k) + Shifted(w / 128, k + 1)) % TWO_64 == (acc + Shifted(w, k)) % TWO_64
  {
    GroupSplit(w, k);
  }

  /** The first byte of a written varint of more than one group, and the varint of the higher groups right after it. */
  lemma VarintHead(data: seq<byte>, i: nat, w: nat)
    requires w >= 128
    requires i + |VarintBytes(w)| <= |data| && data[i..i + |VarintBytes(w)|] == VarintBytes(w)
    ensures i < |data| && data[i] == w % 128 + 128 && |VarintBytes(w)| == 1 + |VarintBytes(w / 128)|
    ensures data[i + 1..i + 1 + |VarintBytes(w / 128)|] == VarintBytes(w / 128)
  {
    var vb := VarintBytes(w);
    assert data[i] == vb[0];
    assert vb == [w % 128 + 128] + VarintBytes(w / 128);
    assert data[i + 1..i + |vb|] == vb[1..];
  }

  /** A written varint of one group is that one byte. */
  lemma VarintLastByte(data: seq<byte>, i: nat, w: nat)
    requires w < 128
    requires i + |VarintBytes(w)| <= |data| && data[i..i + |VarintBytes(w)|] == VarintBytes(w)
    ensures i < |data| && data[i] == w && |VarintBytes(w)| == 1
  {
    assert data[i] == VarintBytes(w)[0];
  }

  /** The last byte of a varint: its value is added at the current shift and the loop stops. */
  lemma ReadVarintFromLast(data: seq<byte>, i: nat, k: nat, acc: nat)
    requires 7 * k < 64 && i < |data| && data[i] < 128
    ensures ReadVarintFrom(data, i, k, acc) == Ok(((acc + Shifted(data[i], k)) % TWO_64, i + 1))
  {
    assert ReadVarintFrom(data, i, k, acc) == ReadVarintByte(data, i, k, acc);
  }

  /** One continuation byte: its low seven bits are added at the current shift. */
  lemma ReadVarintFromStep(data: seq<byte>, i: nat, k: nat, acc: nat)
    requires 7 * k < 64 && i < |data| && data[i] >= 128
    ensures ReadVarintFrom(data, i, k, acc) == ReadVarintFrom(data, i + 1, k + 1, acc + Shifted(data[i] % 128, k))
  {
    assert ReadVarintFrom(data, i, k, acc) == ReadVarintByte(data, i, k, acc);
  }

  /** A continuation byte holding group g: g is added at the current shift and the loop goes on. */
  lemma ReadVarintFromGroup(data: seq<byte>, i: nat, k: nat, acc: nat, g: nat)
    requires 7 * k < 64 && i < |data| && g < 128 && data[i] == g + 128
    ensures ReadVarintFrom(data, i, k, acc) == ReadVarintFrom(data, i + 1, k + 1, acc + Shifted(g, k))
  {
    LowBits(data[i], g);
    ReadVarintFromStep(data, i, k, acc);
  }

  /** The low seven bits of a continuation byte are the group it carries. */
  lemma LowBits(b: nat, g: nat)
    requires g < 128 && b == g + 128
    ensures b % 128 == g
  {
  }

  /** Decoding the varint of v, wherever it sits, gives back v and the index after it. */
  lemma ReadVarintRoundTrip(data: seq<byte>, i: nat, v: uint64)
    requires i + |VarintBytes(v)| <= |data| && data[i..i + |VarintBytes(v)|] == VarintBytes(v)
    ensures ReadVarint(data, i) == Ok((v, i + |VarintBytes(v)|))
  {
    VarintBytesAtMostTen(v);
    ReadVarintFromBytes(data, i, 0, 0, v);
    FirstGroupUnshifted(v);
  }

  /** A 64-bit value read from group position 0 with nothing accumulated is itself. */
  lemma FirstGroupUnshifted(v: uint64)
    ensures (0 + Shifted(v, 0)) % TWO_64 == v
  {
  }

  lemma {:induction false} ReadVarintFromContinuation(data: seq<byte>, i: nat, k: nat, acc: nat)
    requires k <= 10 && i <= |data|
    requires forall j :: i <= j < |data| && j < i + 10 - k ==> data[j] >= 128
    ensures ReadVarintFrom(data, i, k, acc) == (if i + 10 - k <= |data| then Err(IntOverflow) else Err(UnexpectedEOF))
    decreases 10 - k
  {
    if 7 * k < 64 && i < |data| {
      ReadVarintFromContinuation(data, i + 1, k + 1, acc + Shifted(data[i] % 128, k));
    }
  }

  /**
   * A varint whose bytes all carry the continuation bit fails: with IntOverflow once
   * ten bytes have been read (shift reaches 64), with UnexpectedEOF if the data ends first.
   */
  lemma ReadVarintFailures(data: seq<byte>, i: nat)
    requires i <= |data|
    requires forall j :: i <= j < |data| && j < i + 10 ==> data[j] >= 128
    ensures i + 10 <= |data| ==> ReadVarint(data, i) == Err(IntOverflow)
    ensures i + 10 > |data| ==> ReadVarint(data, i) == Err(UnexpectedEOF)
  {
    ReadVarintFromContinuation(data, i, 0, 0);
  }
}
