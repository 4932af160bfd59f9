/**
 * Unmarshal for the five metapb records. The generated Go code repeats one loop per
 * record: read a tag, reject wire type 4 and field numbers <= 0, decode a known field
 * (checking its wire type) or step over an unknown one with skipMetapb and keep its
 * bytes. Here the loop is written once over a union of the records, and the field
 * switch of each record is one branch of FieldStep.
 *
 * Unmarshal merges into the message it is given: scalar and bytes fields are
 * overwritten, the region epoch is decoded into the existing one, peers and unknown
 * bytes are appended.
 */
module Decode {
  import opened Common
  import opened Wire
  import opened Skip
  import opened Metapb

  datatype Message =
    | ClusterM(cluster: Cluster)
    | StoreM(store: Store)
    | EpochM(epoch: RegionEpoch)
    | RegionM(region: Region)
    | PeerM(peer: Peer)

  /** The record name that the tag errors carry. */
  function Name(m: Message): string
  {
    match m
    case ClusterM(_) => "Cluster"
    case StoreM(_) => "Store"
    case EpochM(_) => "RegionEpoch"
    case RegionM(_) => "Region"
    case PeerM(_) => "Peer"
  }

  predicate SameKind(a: Message, b: Message)
  {
    a.ClusterM? == b.ClusterM? && a.StoreM? == b.StoreM? && a.EpochM? == b.EpochM?
    && a.RegionM? == b.RegionM? && a.PeerM? == b.PeerM?
  }

  /** The field numbers each record knows; every other number is an unknown field. */
  function Known(m: Message): set<int>
  {
    match m
    case ClusterM(_) => {1, 2}
    case StoreM(_) => {1, 2, 3}
    case EpochM(_) => {1, 2}
    case RegionM(_) => {1, 2, 3, 4, 5}
    case PeerM(_) => {1, 2}
  }

  function Unrecognized(m: Message): seq<byte>
  {
    match m
    case ClusterM(c) => c.unrecognized
    case StoreM(s) => s.unrecognized
    case EpochM(e) => e.unrecognized
    case RegionM(g) => g.unrecognized
    case PeerM(p) => p.unrecognized
  }

  /** The message with the bytes appended to the unknown bytes it keeps. */
  function AppendUnrecognized(m: Message, b: seq<byte>): (r: Message)
    ensures SameKind(r, m) && Unrecognized(r) == Unrecognized(m) + b
  {
    match m
    case ClusterM(c) => ClusterM(c.(unrecognized := c.unrecognized + b))
    case StoreM(s) => StoreM(s.(unrecognized := s.unrecognized + b))
    case EpochM(e) => EpochM(e.(unrecognized := e.unrecognized + b))
    case RegionM(g) => RegionM(g.(unrecognized := g.unrecognized + b))
    case PeerM(p) => PeerM(p.(unrecognized := p.unrecognized + b))
  }

  /** What Reset() leaves, and what a fresh &RegionEpoch{} or &Peer{} holds. */
  const EMPTY_CLUSTER := Cluster(0, 0, [])
  const EMPTY_STORE := Store(0, [], 0, [])
  const EMPTY_EPOCH := RegionEpoch(0, 0, [])
  const EMPTY_REGION := Region(0, None, None, None, [], [])
  const EMPTY_PEER := Peer(0, 0, [])

  /** A tag that passed the checks: its field number, wire type, raw value and the index after it. */
  datatype Tag = Tag(fieldNum: int32, wireType: nat, wire: uint64, next: nat)

  /**
   * Reads the tag at index i: fieldNum = int32(wire >> 3), wireType = wire & 7. Wire
   * type 4 and a field number <= 0 are rejected, in that order.
   */
  function NextTag(data: seq<byte>, i: nat, message: string): (r: Result<Tag, DecodeError>)
    ensures r.Ok? ==> i < r.value.next <= |data| && 0 < r.value.fieldNum
    ensures r.Ok? ==> r.value.wireType < 8 && r.value.wireType != 4
  {
    match ReadVarint(data, i)
    case Err(e) => Err(e)
    case Ok((wire, j)) =>
      var fieldNum := Int32Of(wire / 8);
      var wireType := wire % 8;
      if wireType == 4 then Err(EndGroupForNonGroup(message))
      else if fieldNum <= 0 then Err(IllegalTag(message, fieldNum, wire))
      else Ok(Tag(fieldNum, wireType, wire, j))
  }

  /** A varint field: wire type 0, then the varint after the tag. */
  function VarintValue(data: seq<byte>, t: Tag, field: string): (r: Result<(uint64, nat), DecodeError>)
    ensures r.Ok? ==> t.next < r.value.1 <= |data|
  {
    if t.wireType != 0 then Err(WrongWireType(field, t.wireType))
    else ReadVarint(data, t.next)
  }

  /**
   * A bytes or embedded-message field: wire type 2, a varint length read as a Go int
   * (negative is InvalidLength), and that many bytes, which must all be present.
   */
  function LengthDelimitedValue(data: seq<byte>, t: Tag, field: string): (r: Result<(seq<byte>, nat), DecodeError>)
    ensures r.Ok? ==> t.next + |r.value.0| < r.value.1 <= |data|
    ensures r.Ok? ==> r.value.0 == data[r.value.1 - |r.value.0|..r.value.1]
  {
    if t.wireType != 2 then Err(WrongWireType(field, t.wireType))
    else
      match ReadVarint(data, t.next)
      case Err(e) => Err(e)
      case Ok((len, j)) =>
        var length := Signed64(len);
        if length < 0 then Err(InvalidLength)
        else if j + length > |data| then Err(UnexpectedEOF)
        else Ok((data[j..j + length], j + length))
  }

  /**
   * The length check of a bytes or embedded-message field as generated: postIndex is the
   * Go int sum of the index after the length and the length, and only postIndex > l is
   * rejected. Ok carries postIndex, the end of the slice data[j:postIndex] taken next.
   */
  function LengthCheckAsWritten(l: nat, j: int64, length: int64): (r: Result<int64, DecodeError>)
    ensures r.Err? <==> length < 0 || AddInt(j, length) > l
    ensures r.Ok? ==> r.value <= l
  {
    if length < 0 then Err(InvalidLength)
    else
      var postIndex := AddInt(j, length);
      if postIndex > l then Err(UnexpectedEOF) else Ok(postIndex)
  }

  /** The default branch: skipMetapb from the start of the tag, and the skipped bytes must all be present. */
  function UnknownValue(data: seq<byte>, pre: nat): (r: Result<(seq<byte>, nat), DecodeError>)
    requires pre < |data|
    ensures r.Ok? ==> pre < r.value.1 <= |data| && r.value.0 == data[pre..r.value.1]
  {
    match SkipField(data[pre..])
    case Err(e) => Err(e)
    case Ok(skippy) =>
      if pre + skippy > |data| then Err(UnexpectedEOF)
      else Ok((data[pre..pre + skippy], pre + skippy))
  }

  /** The switch on the field number, for the field whose tag starts at pre. */
  function FieldStep(m: Message, data: seq<byte>, pre: nat, t: Tag): (r: Result<(Message, nat), DecodeError>)
    requires pre < t.next <= |data|
    ensures r.Ok? ==> pre < r.value.1 <= |data| && SameKind(r.value.0, m)
    decreases |data|, 1
  {
    if t.fieldNum !in Known(m) then
      match UnknownValue(data, pre)
      case Err(e) => Err(e)
      case Ok((b, j)) => Ok((AppendUnrecognized(m, b), j))
    else
      match m
      case ClusterM(c) => ClusterFieldStep(c, data, t)
      case StoreM(s) => StoreFieldStep(s, data, t)
      case EpochM(e) => EpochFieldStep(e, data, t)
      case RegionM(g) => RegionFieldStep(g, data, t)
      case PeerM(p) => PeerFieldStep(p, data, t)
  }

  /** The switch of Cluster.Unmarshal: MaxPeerCount keeps the low 32 bits of the varint. */
  function ClusterFieldStep(c: Cluster, data: seq<byte>, t: Tag): (r: Result<(Message, nat), DecodeError>)
    requires 1 <= t.fieldNum <= 2
    ensures r.Ok? ==> t.next < r.value.1 <= |data| && r.value.0.ClusterM?
  {
    if t.fieldNum == 1 then
      match VarintValue(data, t, "Id")
      case Err(e) => Err(e)
      case Ok((v, j)) => Ok((ClusterM(c.(id := v)), j))
    else
      match VarintValue(data, t, "MaxPeerCount")
      case Err(e) => Err(e)
      case Ok((v, j)) => Ok((ClusterM(c.(maxPeerCount := v % TWO_32)), j))
  }

  /** The switch of Store.Unmarshal: State keeps the low 32 bits of the varint, as a signed value. */
  function StoreFieldStep(s: Store, data: seq<byte>, t: Tag): (r: Result<(Message, nat), DecodeError>)
    requires 1 <= t.fieldNum <= 3
    ensures r.Ok? ==> t.next < r.value.1 <= |data| && r.value.0.StoreM?
  {
    if t.fieldNum == 1 then
      match VarintValue(data, t, "Id")
      case Err(e) => Err(e)
      case Ok((v, j)) => Ok((StoreM(s.(id := v)), j))
    else if t.fieldNum == 2 then
      match LengthDelimitedValue(data, t, "Address")
      case Err(e) => Err(e)
      case Ok((b, j)) => Ok((StoreM(s.(address := b)), j))
    else
      match VarintValue(data, t, "State")
      case Err(e) => Err(e)
      case Ok((v, j)) => Ok((StoreM(s.(state := Signed32(v % TWO_32))), j))
  }

  /** The switch of RegionEpoch.Unmarshal. */
  function EpochFieldStep(e: RegionEpoch, data: seq<byte>, t: Tag): (r: Result<(Message, nat), DecodeError>)
    requires 1 <= t.fieldNum <= 2
    ensures r.Ok? ==> t.next < r.value.1 <= |data| && r.value.0.EpochM?
  {
    if t.fieldNum == 1 then
      match VarintValue(data, t, "ConfVer")
      case Err(err) => Err(err)
      case Ok((v, j)) => Ok((EpochM(e.(confVer := v)), j))
    else
      match VarintValue(data, t, "Version")
      case Err(err) => Err(err)
      case Ok((v, j)) => Ok((EpochM(e.(version := v)), j))
  }

  /** The switch of Peer.Unmarshal. */
  function PeerFieldStep(p: Peer, data: seq<byte>, t: Tag): (r: Result<(Message, nat), DecodeError>)
    requires 1 <= t.fieldNum <= 2
    ensures r.Ok? ==> t.next < r.value.1 <= |data| && r.value.0.PeerM?
  {
    if t.fieldNum == 1 then
      match VarintValue(data, t, "Id")
      case Err(e) => Err(e)
      case Ok((v, j)) => Ok((PeerM(p.(id := v)), j))
    else
      match VarintValue(data, t, "StoreId")
      case Err(e) => Err(e)
      case Ok((v, j)) => Ok((PeerM(p.(storeId := v)), j))
  }

  /** The switch of Region.Unmarshal for its five known fields. */
  function RegionFieldStep(g: Region, data: seq<byte>, t: Tag): (r: Result<(Message, nat), DecodeError>)
    requires 1 <= t.fieldNum <= 5
    ensures r.Ok? ==> t.next < r.value.1 <= |data| && r.value.0.RegionM?
    decreases |data|, 0
  {
    if t.fieldNum == 1 then
      match VarintValue(data, t, "Id")
      case Err(e) => Err(e)
      case Ok((v, j)) => Ok((RegionM(g.(id := v)), j))
    else if t.fieldNum == 2 then
      match LengthDelimitedValue(data, t, "StartKey")
      case Err(e) => Err(e)
      case Ok((b, j)) => Ok((RegionM(g.(startKey := Some(b))), j))
    else if t.fieldNum == 3 then
      match LengthDelimitedValue(data, t, "EndKey")
      case Err(e) => Err(e)
      case Ok((b, j)) => Ok((RegionM(g.(endKey := Some(b))), j))
    else if t.fieldNum == 4 then
      match LengthDelimitedValue(data, t, "RegionEpoch")
      case Err(e) => Err(e)
      case Ok((b, j)) =>
        var into := if g.regionEpoch.Some? then g.regionEpoch.value else EMPTY_EPOCH;
        match DecodeFrom(EpochM(into), b, 0)
        case Err(e) => Err(e)
        case Ok(em) => Ok((RegionM(g.(regionEpoch := Some(em.epoch))), j))
    else
      match LengthDelimitedValue(data, t, "Peers")
      case Err(e) => Err(e)
      case Ok((b, j)) =>
        match DecodeFrom(PeerM(EMPTY_PEER), b, 0)
        case Err(e) => Err(e)
        case Ok(pm) => Ok((RegionM(g.(peers := g.peers + [pm.peer])), j))
  }

  /** The Unmarshal loop from index i: one field per iteration until the input is used up. */
  function DecodeFrom(m: Message, data: seq<byte>, i: nat): (r: Result<Message, DecodeError>)
    requires i <= |data|
    ensures r.Ok? ==> SameKind(r.value, m)
    decreases |data|, |data| - i + 2
  {
    if i == |data| then Ok(m)
    else
      match NextTag(data, i, Name(m))
      case Err(e) => Err(e)
      case Ok(t) =>
        match FieldStep(m, data, i, t)
        case Err(e) => Err(e)
        case Ok((m', j)) => DecodeFrom(m', data, j)
  }

  /** m.Unmarshal(data) */
  function Decode(m: Message, data: seq<byte>): (r: Result<Message, DecodeError>)
    ensures r.Ok? ==> SameKind(r.value, m)
  {
    DecodeFrom(m, data, 0)
  }

  /** The tag loop at the top of every Unmarshal iteration, with its two checks. */
  method DecodeTag(data: seq<byte>, i: nat, message: string) returns (r: Result<Tag, DecodeError>)
    ensures r == NextTag(data, i, message)
  {
    var v := DecodeVarint(data, i);
    if v.Err? {
      return Err(v.error);
    }
    var (wire, j) := v.value;
    var fieldNum := Int32Of(wire / 8);
    var wireType := wire % 8;
    if wireType == 4 {
      return Err(EndGroupForNonGroup(message));
    }
    if fieldNum <= 0 {
      return Err(IllegalTag(message, fieldNum, wire));
    }
    return Ok(Tag(fieldNum, wireType, wire, j));
  }

  method DecodeVarintValue(data: seq<byte>, t: Tag, field: string) returns (r: Result<(uint64, nat), DecodeError>)
    ensures r == VarintValue(data, t, field)
  {
    if t.wireType != 0 {
      return Err(WrongWireType(field, t.wireType));
    }
    r := DecodeVarint(data, t.next);
  }

  method DecodeLengthDelimited(data: seq<byte>, t: Tag, field: string) returns (r: Result<(seq<byte>, nat), DecodeError>)
    ensures r == LengthDelimitedValue(data, t, field)
  {
    if t.wireType != 2 {
      return Err(WrongWireType(field, t.wireType));
    }
    var len := DecodeVarint(data, t.next);
    if len.Err? {
      return Err(len.error);
    }
    var length := Signed64(len.value.0);
    var index := len.value.1;
    if length < 0 {
      return Err(InvalidLength);
    }
    var postIndex := index + length;
    if postIndex > |data| {
      return Err(UnexpectedEOF);
    }
    return Ok((data[index..postIndex], postIndex));
  }

  method DecodeUnknown(data: seq<byte>, pre: nat) returns (r: Result<(seq<byte>, nat), DecodeError>)
    requires pre < |data|
    ensures r == UnknownValue(data, pre)
  {
    var skippy := SkipMetapb(data[pre..]);
    if skippy.Err? {
      return Err(skippy.error);
    }
    if pre + skippy.value > |data| {
      return Err(UnexpectedEOF);
    }
    return Ok((data[pre..pre + skippy.value], pre + skippy.value));
  }

  /** The field switch of every Unmarshal; the region's sub-messages are unmarshalled recursively. */
  method DecodeField(m: Message, data: seq<byte>, pre: nat, t: Tag) returns (r: Result<(Message, nat), DecodeError>)
    requires pre < t.next <= |data|
    ensures r == FieldStep(m, data, pre, t)
    decreases |data|, 1
  {
    if t.fieldNum !in Known(m) {
      var u := DecodeUnknown(data, pre);
      if u.Err? {
        return Err(u.error);
      }
      return Ok((AppendUnrecognized(m, u.value.0), u.value.1));
    }
    match m
    case ClusterM(c) =>
      var field := if t.fieldNum == 1 then "Id" else "MaxPeerCount";
      var v := DecodeVarintValue(data, t, field);
      if v.Err? {
        return Err(v.error);
      }
      if t.fieldNum == 1 {
        return Ok((ClusterM(c.(id := v.value.0)), v.value.1));
      }
      return Ok((ClusterM(c.(maxPeerCount := v.value.0 % TWO_32)), v.value.1));
    case StoreM(s) =>
      if t.fieldNum == 2 {
        var b := DecodeLengthDelimited(data, t, "Address");
        if b.Err? {
          return Err(b.error);
        }
        return Ok((StoreM(s.(address := b.value.0)), b.value.1));
      }
      var field := if t.fieldNum == 1 then "Id" else "State";
      var v := DecodeVarintValue(data, t, field);
      if v.Err? {
        return Err(v.error);
      }
      if t.fieldNum == 1 {
        return Ok((StoreM(s.(id := v.value.0)), v.value.1));
      }
      return Ok((StoreM(s.(state := Signed32(v.value.0 % TWO_32))), v.value.1));
    case EpochM(e) =>
      var field := if t.fieldNum == 1 then "ConfVer" else "Version";
      var v := DecodeVarintValue(data, t, field);
      if v.Err? {
        return Err(v.error);
      }
      if t.fieldNum == 1 {
        return Ok((EpochM(e.(confVer := v.value.0)), v.value.1));
      }
      return Ok((EpochM(e.(version := v.value.0)), v.value.1));
    case PeerM(p) =>
      var field := if t.fieldNum == 1 then "Id" else "StoreId";
      var v := DecodeVarintValue(data, t, field);
      if v.Err? {
        return Err(v.error);
      }
      if t.fieldNum == 1 {
        return Ok((PeerM(p.(id := v.value.0)), v.value.1));
      }
      return Ok((PeerM(p.(storeId := v.value.0)), v.value.1));
    case RegionM(g) =>
      r := DecodeRegionField(g, data, t);
  }

  method DecodeRegionField(g: Region, data: seq<byte>, t: Tag) returns (r: Result<(Message, nat), DecodeError>)
    requires 1 <= t.fieldNum <= 5
    ensures r == RegionFieldStep(g, data, t)
    decreases |data|, 0
  {
    if t.fieldNum == 1 {
      var v := DecodeVarintValue(data, t, "Id");
      if v.Err? {
        return Err(v.error);
      }
      return Ok((RegionM(g.(id := v.value.0)), v.value.1));
    }
    var field := if t.fieldNum == 2 then "StartKey" else if t.fieldNum == 3 then "EndKey"
      else if t.fieldNum == 4 then "RegionEpoch" else "Peers";
    var b := DecodeLengthDelimited(data, t, field);
    if b.Err? {
      return Err(b.error);
    }
    var (payload, postIndex) := b.value;
    if t.fieldNum == 2 {
      return Ok((RegionM(g.(startKey := Some(payload))), postIndex));
    } else if t.fieldNum == 3 {
      return Ok((RegionM(g.(endKey := Some(payload))), postIndex));
    } else if t.fieldNum == 4 {
      var into := if g.regionEpoch.Some? then g.regionEpoch.value else EMPTY_EPOCH;
      var em := Unmarshal(EpochM(into), payload);
      if em.Err? {
        return Err(em.error);
      }
      return Ok((RegionM(g.(regionEpoch := Some(em.value.epoch))), postIndex));
    } else {
      var pm := Unmarshal(PeerM(EMPTY_PEER), payload);
      if pm.Err? {
        return Err(pm.error);
      }
      return Ok((RegionM(g.(peers := g.peers + [pm.value.peer])), postIndex));
    }
  }

  /** m.Unmarshal(data) */
  method Unmarshal(m: Message, data: seq<byte>) returns (r: Result<Message, DecodeError>)
    ensures r == Decode(m, data)
    decreases |data|, 2
  {
    var msg := m;
    var index := 0;
    while index < |data|
      invariant index <= |data| && DecodeFrom(m, data, 0) == DecodeFrom(msg, data, index)
      decreases |data| - index
    {
      var preIndex := index;
      var tag := DecodeTag(data, index, Name(msg));
      if tag.Err? {
        return Err(tag.error);
      }
      var step := DecodeField(msg, data, preIndex, tag.value);
      if step.Err? {
        return Err(step.error);
      }
      msg, index := step.value.0, step.value.1;
    }
    return Ok(msg);
  }
}
