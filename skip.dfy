/**
 * skipMetapb, which the Unmarshal functions use to step over a field they do not know,
 * and a description of the fields it steps over.
 */
module Skip {
  import opened Common
  import opened Wire

  /**
   * The length of the one field at the start of data: a varint for wire type 0, eight
   * bytes for 1, a length prefix and its payload for 2, four bytes for 5, everything up
   * to the end-group tag of the same nesting level for 3, and only the tag for 4. The
   * length may run past the end of data; the caller checks that.
   */
  function SkipField(data: seq<byte>): (r: Result<int, DecodeError>)
    requires |data| > 0
    ensures r.Ok? ==> r.value >= 1
    decreases |data|, |data| + 2
  {
    match ReadVarint(data, 0)
    case Err(e) => Err(e)
    case Ok((wire, i)) => SkipPayload(data, wire % 8, i)
  }

  /** The part of skipMetapb after the tag: wireType is the tag's low three bits, i the index after it. */
  function SkipPayload(data: seq<byte>, wireType: nat, i: nat): (r: Result<int, DecodeError>)
    requires 1 <= i
    ensures r.Ok? ==> r.value >= i
    decreases |data|, |data| + 1
  {
    if wireType == 0 then
      match ReadVarint(data, i)
      case Err(e) => Err(e)
      case Ok((_, j)) => Ok(j)
    else if wireType == 1 then Ok(i + 8)
    else if wireType == 2 then
      match ReadVarint(data, i)
      case Err(e) => Err(e)
      case Ok((len, j)) =>
        var length := Signed64(len);
        if length < 0 then Err(InvalidLength) else Ok(j + length)
    else if wireType == 3 then SkipGroup(data, i)
    else if wireType == 4 then Ok(i)
    else if wireType == 5 then Ok(i + 4)
    else Err(IllegalWireType(wireType))
  }

  /** Wire types 6 and 7 name no encoding: skipMetapb refuses them. */
  lemma IllegalWireTypeRejected(data: seq<byte>, wire: uint64, i: nat)
    requires |data| > 0 && ReadVarint(data, 0) == Ok((wire, i)) && wire % 8 >= 6
    ensures SkipField(data) == Err(IllegalWireType(wire % 8))
  {
  }

  /** The loop of wire type 3: skip whole fields from index i until an end-group tag. */
  function SkipGroup(data: seq<byte>, i: nat): (r: Result<int, DecodeError>)
    requires 1 <= i
    ensures r.Ok? ==> r.value > i
    decreases |data|, |data| - i, 1
  {
    match ReadVarint(data, i)
    case Err(e) => Err(e)
    case Ok((inner, j)) => if inner % 8 == 4 then Ok(j) else SkipGroupField(data, i)
  }

  /** One turn of the group loop on a field that does not end the group. */
  function SkipGroupField(data: seq<byte>, i: nat): (r: Result<int, DecodeError>)
    requires 1 <= i < |data|
    ensures r.Ok? ==> r.value > i
    decreases |data|, |data| - i, 0
  {
    match SkipField(data[i..])
    case Err(e) => Err(e)
    case Ok(next) => SkipGroup(data, i + next)
  }

  /** skipMetapb. The loop of wire type 0 is the varint loop without the accumulation. */
  method SkipMetapb(data: seq<byte>) returns (r: Result<int, DecodeError>)
    requires |data| > 0
    ensures r == SkipField(data)
    decreases |data|, 1
  {
    var tag := DecodeVarint(data, 0);
    if tag.Err? {
      return Err(tag.error);
    }
    var (wire, i) := tag.value;
    var wireType := wire % 8;
    assert SkipField(data) == SkipPayload(data, wireType, i);
    if wireType == 0 {
      var v := DecodeVarint(data, i);
      if v.Err? {
        return Err(v.error);
      }
      return Ok(v.value.1);
    } else if wireType == 1 {
      return Ok(i + 8);
    } else if wireType == 2 {
      var len := DecodeVarint(data, i);
      if len.Err? {
        return Err(len.error);
      }
      var length := Signed64(len.value.0);
      var next: int := len.value.1 + length;
      if length < 0 {
        return Err(InvalidLength);
      }
      return Ok(next);
    } else if wireType == 3 {
      r := SkipGroupLoop(data, i);
    } else if wireType == 4 {
      return Ok(i);
    } else if wireType == 5 {
      return Ok(i + 4);
    } else {
      return Err(IllegalWireType(wireType));
    }
  }

  /** The loop of wire type 3 in skipMetapb, from the index after the group's tag. */
  method SkipGroupLoop(data: seq<byte>, i: nat) returns (r: Result<int, DecodeError>)
    requires 1 <= i
    ensures r == SkipGroup(data, i)
    decreases |data|, 0
  {
    var index := i;
    while true
      invariant 1 <= index && SkipGroup(data, i) == SkipGroup(data, index)
      decreases |data| - index
    {
      var start := index;
      var inner := DecodeVarint(data, index);
      if inner.Err? {
        return Err(inner.error);
      }
      index := inner.value.1;
      if inner.value.0 % 8 == 4 {
        break;
      }
      var next := SkipMetapb(data[start..]);
      if next.Err? {
        return Err(next.error);
      }
      index := start + next.value;
    }
    return Ok(index);
  }

  /** A field as it can appear on the wire, whatever message it belongs to. */
  datatype UnknownField =
    | VarintField(num: nat, value: uint64)
    | Fixed64Field(num: nat, bytes: seq<byte>)
    | BytesField(num: nat, payload: seq<byte>)
    | GroupField(num: nat, fields: seq<UnknownField>)
    | Fixed32Field(num: nat, bytes: seq<byte>)

  /** The largest field number the protocol allows, plus one. */
  const FIELD_NUMBER_LIMIT: nat := 0x2000_0000

  function Tag(num: nat, wireType: nat): seq<byte>
  {
    VarintBytes(num * 8 + wireType)
  }

  function FieldBytes(f: UnknownField): seq<byte>
    decreases f, 1
  {
    match f
    case VarintField(n, v) => Tag(n, 0) + VarintBytes(v)
    case Fixed64Field(n, b) => Tag(n, 1) + b
    case BytesField(n, p) => Tag(n, 2) + VarintBytes(|p|) + p
    case GroupField(n, fs) => Tag(n, 3) + FieldsBytes(fs) + Tag(n, 4)
    case Fixed32Field(n, b) => Tag(n, 5) + b
  }

  function FieldsBytes(fs: seq<UnknownField>): seq<byte>
    decreases fs, 0
  {
    if fs == [] then [] else FieldBytes(fs[0]) + FieldsBytes(fs[1..])
  }

  /** A field that can be written: a legal field number and payloads of the right size. */
  predicate ValidField(f: UnknownField)
    decreases f, 1
  {
    && 1 <= f.num < FIELD_NUMBER_LIMIT
    && match f
       case VarintField(_, _) => true
       case Fixed64Field(_, b) => |b| == 8
       case BytesField(_, p) => |p| < TWO_63
       case GroupField(_, fs) => ValidFields(fs)
       case Fixed32Field(_, b) => |b| == 4
  }

  predicate ValidFields(fs: seq<UnknownField>)
    decreases fs, 0
  {
    fs == [] || (ValidField(fs[0]) && ValidFields(fs[1..]))
  }

  lemma TagParts(num: nat, wireType: nat)
    requires wireType < 8
    ensures (num * 8 + wireType) % 8 == wireType && (num * 8 + wireType) / 8 == num
  {
  }

  /** Reading the tag of field num with the given wire type at index i. */
  lemma ReadTag(data: seq<byte>, i: nat, num: nat, wireType: nat)
    requires num < FIELD_NUMBER_LIMIT && wireType < 8
    requires i + |Tag(num, wireType)| <= |data| && data[i..i + |Tag(num, wireType)|] == Tag(num, wireType)
    ensures ReadVarint(data, i).Ok?
    ensures ReadVarint(data, i).value == (num * 8 + wireType, i + |Tag(num, wireType)|)
    ensures ReadVarint(data, i).value.0 % 8 == wireType && ReadVarint(data, i).value.0 / 8 == num
  {
    ReadVarintRoundTrip(data, i, num * 8 + wireType);
    TagParts(num, wireType);
  }

  /** skipMetapb steps over exactly one written field, whatever follows it. */
  lemma {:induction false} SkipFieldBytes(f: UnknownField, rest: seq<byte>)
    requires ValidField(f)
    ensures SkipField(FieldBytes(f) + rest) == Ok(|FieldBytes(f)|)
    decreases f, 1
  {
    match f
    case VarintField(n, v) => SkipVarintBytes(n, v, rest);
    case Fixed64Field(n, b) => SkipFixedBytes(n, 1, b, rest);
    case BytesField(n, p) => SkipLengthDelimitedBytes(n, p, rest);
    case GroupField(n, fs) =>
      var data := FieldBytes(f) + rest;
      var t := Tag(n, 3);
      assert data == t + (FieldsBytes(fs) + Tag(n, 4) + rest);
      ReadTag(data, 0, n, 3);
      assert data[|t|..] == FieldsBytes(fs) + Tag(n, 4) + rest;
      SkipGroupBytes(data, |t|, fs, n, rest);
    case Fixed32Field(n, b) => SkipFixedBytes(n, 5, b, rest);
  }

  lemma SkipVarintBytes(n: nat, v: uint64, rest: seq<byte>)
    requires 1 <= n < FIELD_NUMBER_LIMIT
    ensures SkipField(FieldBytes(VarintField(n, v)) + rest) == Ok(|FieldBytes(VarintField(n, v))|)
  {
    FieldReads(n, 0, v, rest);
    SkipFieldFromReads(FieldBytes(VarintField(n, v)) + rest, 0, |Tag(n, 0)|, v, |Tag(n, 0)| + |VarintBytes(v)|);
  }

  lemma SkipFixedBytes(n: nat, wireType: nat, b: seq<byte>, rest: seq<byte>)
    requires 1 <= n < FIELD_NUMBER_LIMIT
    requires (wireType == 1 && |b| == 8) || (wireType == 5 && |b| == 4)
    ensures SkipField(Tag(n, wireType) + b + rest) == Ok(|Tag(n, wireType) + b|)
  {
    var data := Tag(n, wireType) + b + rest;
    assert data[..|Tag(n, wireType)|] == Tag(n, wireType);
    ReadTag(data, 0, n, wireType);
  }

  lemma SkipLengthDelimitedBytes(n: nat, p: seq<byte>, rest: seq<byte>)
    requires 1 <= n < FIELD_NUMBER_LIMIT && |p| < TWO_63
    ensures SkipField(FieldBytes(BytesField(n, p)) + rest) == Ok(|FieldBytes(BytesField(n, p))|)
  {
    FieldReads(n, 2, |p|, p + rest);
    assert FieldBytes(BytesField(n, p)) + rest == Tag(n, 2) + VarintBytes(|p|) + (p + rest);
    SkipFieldFromReads(FieldBytes(BytesField(n, p)) + rest, 2, |Tag(n, 2)|, |p|, |Tag(n, 2)| + |VarintBytes(|p|)|);
  }

  /** A tag of wire type 0 or 2 followed by a varint: both varints read back, one after the other. */
  lemma FieldReads(n: nat, wireType: nat, x: uint64, rest: seq<byte>)
    requires 1 <= n < FIELD_NUMBER_LIMIT && (wireType == 0 || wireType == 2)
    ensures var data, t := Tag(n, wireType) + VarintBytes(x) + rest, |Tag(n, wireType)|;
      && 1 <= t
      && ReadVarint(data, 0).Ok? && ReadVarint(data, 0).value.0 % 8 == wireType && ReadVarint(data, 0).value.1 == t
      && ReadVarint(data, t) == Ok((x, t + |VarintBytes(x)|))
  {
    var t, xb := Tag(n, wireType), VarintBytes(x);
    var data := t + xb + rest;
    FrontParts(t, xb, rest);
    ReadTag(data, 0, n, wireType);
    ReadVarintRoundTrip(data, |t|, x);
  }

  /** The first two of three concatenated parts, sliced back out. */
  lemma FrontParts(a: seq<byte>, b: seq<byte>, c: seq<byte>)
    ensures (a + b + c)[0..0 + |a|] == a && (a + b + c)[|a|..|a| + |b|] == b
  {
  }

  /**
   * skipMetapb on a field whose tag has wire type 0 or 2, ending at t, followed by a varint
   * ending at j: a varint field ends at j, a bytes field of length x ends x bytes later.
   */
  lemma SkipFieldFromReads(data: seq<byte>, wireType: nat, t: nat, x: uint64, j: nat)
    requires (wireType == 0 || (wireType == 2 && x < TWO_63)) && 1 <= t
    requires ReadVarint(data, 0).Ok? && ReadVarint(data, 0).value.0 % 8 == wireType && ReadVarint(data, 0).value.1 == t
    requires ReadVarint(data, t) == Ok((x, j))
    ensures |data| > 0
    ensures SkipField(data) == Ok(if wireType == 0 then j else j + x)
  {
  }

  /** The group loop steps over the written fields and then over the end-group tag. */
  lemma {:induction false} SkipGroupBytes(data: seq<byte>, i: nat, fs: seq<UnknownField>, n: nat, rest: seq<byte>)
    requires 1 <= i <= |data| && data[i..] == FieldsBytes(fs) + Tag(n, 4) + rest
    requires n < FIELD_NUMBER_LIMIT && ValidFields(fs)
    ensures SkipGroup(data, i) == Ok(i + |FieldsBytes(fs)| + |Tag(n, 4)|)
    decreases fs, 0
  {
    if fs == [] {
      SliceParts(data, i, Tag(n, 4), rest);
      SkipGroupEnd(data, i, n);
    } else {
      var f, more := fs[0], fs[1..];
      var fb := FieldBytes(f);
      assert FieldsBytes(fs) == fb + FieldsBytes(more);
      SliceFirstOfFour(data, i, fb, FieldsBytes(more), Tag(n, 4), rest);
      SkipGroupBytes(data, i + |fb|, more, n, rest);
      SkipGroupFirst(data, i, f, FieldsBytes(more) + Tag(n, 4) + rest, i + |fb| + |FieldsBytes(more)| + |Tag(n, 4)|);
    }
  }

  /** The group loop stops at the end-group tag of field n. */
  lemma SkipGroupEnd(data: seq<byte>, i: nat, n: nat)
    requires 1 <= i && n < FIELD_NUMBER_LIMIT
    requires i + |Tag(n, 4)| <= |data| && data[i..i + |Tag(n, 4)|] == Tag(n, 4)
    ensures SkipGroup(data, i) == Ok(i + |Tag(n, 4)|)
  {
    ReadTag(data, i, n, 4);
  }

  /** Inside a group, a well-formed first field is stepped over as a whole: the loop ends where it ends after that field. */
  lemma SkipGroupFirst(data: seq<byte>, i: nat, f: UnknownField, tail: seq<byte>, end: int)
    requires 1 <= i <= |data| && ValidField(f) && data[i..] == FieldBytes(f) + tail
    requires SkipGroup(data, i + |FieldBytes(f)|) == Ok(end)
    ensures SkipGroup(data, i) == Ok(end)
    decreases f, 2
  {
    assert ReadVarint(data, i).Ok? && ReadVarint(data, i).value.0 % 8 != 4 by {
      FirstTagOf(data, i, f, tail);
    }
    assert SkipField(data[i..]) == Ok(|FieldBytes(f)|) by {
      SkipFieldBytes(f, tail);
    }
    SkipGroupStep(data, i);
  }

  /** Inside a group, a field that is not an end-group tag is stepped over as a whole. */
  lemma SkipGroupStep(data: seq<byte>, i: nat)
    requires 1 <= i < |data| && ReadVarint(data, i).Ok? && ReadVarint(data, i).value.0 % 8 != 4
    requires SkipField(data[i..]).Ok?
    ensures SkipGroup(data, i) == SkipGroup(data, i + SkipField(data[i..]).value)
  {
  }

  /** The wire type a field is written with. */
  function WireTypeOf(f: UnknownField): nat
  {
    match f
    case VarintField(_, _) => 0
    case Fixed64Field(_, _) => 1
    case BytesField(_, _) => 2
    case GroupField(_, _) => 3
    case Fixed32Field(_, _) => 5
  }

  /** A written field starts with its tag, whose wire type is not end-group. */
  lemma FirstTagOf(data: seq<byte>, i: nat, f: UnknownField, rest: seq<byte>)
    requires ValidField(f) && i <= |data| && data[i..] == FieldBytes(f) + rest
    ensures ReadVarint(data, i) == Ok((f.num * 8 + WireTypeOf(f), i + |Tag(f.num, WireTypeOf(f))|))
    ensures ReadVarint(data, i).value.0 % 8 == WireTypeOf(f) != 4
    ensures ReadVarint(data, i).value.0 / 8 == f.num
  {
    var t := Tag(f.num, WireTypeOf(f));
    assert FieldBytes(f)[..|t|] == t;
    assert data[i..i + |t|] == t;
    ReadTag(data, i, f.num, WireTypeOf(f));
  }
}
