/**
 * What the metapb codec promises across its two halves: unmarshalling the bytes that
 * MarshalTo writes merges the written record into the target, so that from a reset
 * message it restores the record exactly; unknown fields survive; and malformed
 * tags are rejected with the error the generated code returns.
 */
module CodecProperties {
  import opened Common
  import opened Wire
  import opened Skip
  import opened Metapb
  import opened Decode

  function Encoding(m: Message): seq<byte>
  {
    match m
    case ClusterM(c) => c.Bytes()
    case StoreM(s) => s.Bytes()
    case EpochM(e) => e.Bytes()
    case RegionM(g) => g.Bytes()
    case PeerM(p) => p.Bytes()
  }

  /** The message Reset leaves behind: the empty record of the same kind. */
  function Reset(m: Message): (r: Message)
    ensures SameKind(r, m)
  {
    match m
    case ClusterM(_) => ClusterM(EMPTY_CLUSTER)
    case StoreM(_) => StoreM(EMPTY_STORE)
    case EpochM(_) => EpochM(EMPTY_EPOCH)
    case RegionM(_) => RegionM(EMPTY_REGION)
    case PeerM(_) => PeerM(EMPTY_PEER)
  }

  /** Every field is a legal field that the record does not know. */
  predicate UnknownFieldsFor(us: seq<UnknownField>, known: set<int>)
  {
    forall u :: u in us ==> ValidField(u) && u.num !in known
  }

  /** The retained bytes are a run of whole fields unknown to the record, as Unmarshal keeps them. */
  ghost predicate Retains(m: Message)
  {
    exists us :: FieldsBytes(us) == Unrecognized(m) && UnknownFieldsFor(us, Known(m))
  }

  /**
   * A record that Unmarshal can have produced: its encoding fits in a Go slice, and its
   * unknown bytes, and those of its epoch and peers, are whole unknown fields.
   */
  ghost predicate WellFormed(m: Message)
  {
    && |Encoding(m)| < TWO_63
    && Retains(m)
    && (m.RegionM? ==>
          && (m.region.regionEpoch.Some? ==> Retains(EpochM(m.region.regionEpoch.value)))
          && (forall p :: p in m.region.peers ==> Retains(PeerM(p))))
  }

  function MergeEpoch(into: RegionEpoch, e: RegionEpoch): RegionEpoch
  {
    e.(unrecognized := into.unrecognized + e.unrecognized)
  }

  /**
   * proto2 merge, as the generated Unmarshal performs it: a field present in m
   * overwrites the target's, the region epoch merges into the target's epoch (or a
   * fresh one), and peers and unknown bytes are appended.
   */
  function Merge(into: Message, m: Message): (r: Message)
    requires SameKind(into, m)
    ensures SameKind(r, m)
  {
    match m
    case ClusterM(c) => ClusterM(c.(unrecognized := into.cluster.unrecognized + c.unrecognized))
    case StoreM(s) => StoreM(s.(unrecognized := into.store.unrecognized + s.unrecognized))
    case EpochM(e) => EpochM(MergeEpoch(into.epoch, e))
    case PeerM(p) => PeerM(p.(unrecognized := into.peer.unrecognized + p.unrecognized))
    case RegionM(g) =>
      var h := into.region;
      RegionM(Region(
        g.id,
        if g.startKey.Some? then g.startKey else h.startKey,
        if g.endKey.Some? then g.endKey else h.endKey,
        if g.regionEpoch.Some? then
          Some(MergeEpoch(if h.regionEpoch.Some? then h.regionEpoch.value else EMPTY_EPOCH, g.regionEpoch.value))
        else h.regionEpoch,
        h.peers + g.peers,
        h.unrecognized + g.unrecognized))
  }

  lemma AppendTwice(m: Message, a: seq<byte>, b: seq<byte>)
    ensures AppendUnrecognized(AppendUnrecognized(m, a), b) == AppendUnrecognized(m, a + b)
  {
    match m
    case ClusterM(c) => assert c.unrecognized + a + b == c.unrecognized + (a + b);
    case StoreM(s) => assert s.unrecognized + a + b == s.unrecognized + (a + b);
    case EpochM(e) => assert e.unrecognized + a + b == e.unrecognized + (a + b);
    case RegionM(g) => assert g.unrecognized + a + b == g.unrecognized + (a + b);
    case PeerM(p) => assert p.unrecognized + a + b == p.unrecognized + (a + b);
  }

  lemma AppendNothing(m: Message)
    ensures AppendUnrecognized(m, []) == m
  {
    match m
    case ClusterM(c) => assert c.unrecognized + [] == c.unrecognized;
    case StoreM(s) => assert s.unrecognized + [] == s.unrecognized;
    case EpochM(e) => assert e.unrecognized + [] == e.unrecognized;
    case RegionM(g) => assert g.unrecognized + [] == g.unrecognized;
    case PeerM(p) => assert p.unrecognized + [] == p.unrecognized;
  }

  /** Decoding into m from index i comes to the same end as decoding into m' from index j. */
  ghost predicate Leads(m: Message, data: seq<byte>, i: nat, m': Message, j: nat)
  {
    i <= |data| && j <= |data| && DecodeFrom(m, data, i) == DecodeFrom(m', data, j)
  }

  /** Two stretches of the decode loop in a row make one. */
  lemma LeadsOn(m0: Message, m1: Message, m2: Message, data: seq<byte>, i0: nat, i1: nat, i2: nat)
    requires Leads(m0, data, i0, m1, i1) && Leads(m1, data, i1, m2, i2)
    ensures Leads(m0, data, i0, m2, i2)
  {
  }

  /** A stretch of the decode loop followed by the rest of the decoding. */
  lemma LeadsTo(m: Message, data: seq<byte>, i: nat, m': Message, j: nat, r: Result<Message, DecodeError>)
    requires Leads(m, data, i, m', j) && DecodeFrom(m', data, j) == r
    ensures i <= |data| && DecodeFrom(m, data, i) == r
  {
  }

  /** No loop turn at all. */
  lemma LeadsSame(m: Message, data: seq<byte>, i: nat)
    requires i <= |data|
    ensures Leads(m, data, i, m, i)
  {
  }

  /** One loop turn: a tag that passes the checks and a field step that succeeds. */
  lemma StepTo(m: Message, data: seq<byte>, i: nat, t: Tag, m': Message, j: nat)
    requires i < |data| && NextTag(data, i, Name(m)) == Ok(t)
    requires FieldStep(m, data, i, t) == Ok((m', j))
    ensures Leads(m, data, i, m', j)
  {
  }

  /** A trailing run of unknown fields is appended, field by field, to the retained bytes. */
  lemma {:induction false} DecodeUnknownRun(m: Message, data: seq<byte>, i: nat, us: seq<UnknownField>)
    requires i <= |data| && data[i..] == FieldsBytes(us) && UnknownFieldsFor(us, Known(m))
    ensures DecodeFrom(m, data, i) == Ok(AppendUnrecognized(m, FieldsBytes(us)))
    decreases us
  {
    if us == [] {
      AppendNothing(m);
    } else {
      var u := us[0];
      assert u in us;
      var fb := FieldBytes(u);
      var tail := FieldsBytes(us[1..]);
      var m1 := AppendUnrecognized(m, fb);
      var j := i + |fb|;
      assert data[i..] == fb + tail;
      DecodeUnknownOne(m, m1, data, i, j, u, tail);
      assert UnknownFieldsFor(us[1..], Known(m1)) by {
        forall v | v in us[1..] ensures ValidField(v) && v.num !in Known(m1) {
          assert v in us;
        }
      }
      DecodeUnknownRun(m1, data, j, us[1..]);
      AppendTwice(m, fb, tail);
      LeadsTo(m, data, i, m1, j, Ok(AppendUnrecognized(m1, tail)));
    }
  }

  /** One unknown field at index i is stepped over and its bytes are appended to the retained ones. */
  lemma DecodeUnknownOne(m: Message, m': Message, data: seq<byte>, i: nat, j: nat, u: UnknownField, tail: seq<byte>)
    requires m' == AppendUnrecognized(m, FieldBytes(u)) && j == i + |FieldBytes(u)|
    requires i <= |data| && data[i..] == FieldBytes(u) + tail
    requires ValidField(u) && u.num !in Known(m)
    ensures j <= |data| && data[j..] == tail
    ensures Leads(m, data, i, m', j)
  {
    var t := UnknownTag(m, data, i, u, tail);
    UnknownValueAt(data, i, u, tail);
    DecodeUnknownStep(m, m', data, i, j, t, FieldBytes(u));
  }

  /** The bytes an unknown field occupies are exactly its encoding. */
  lemma UnknownValueAt(data: seq<byte>, i: nat, u: UnknownField, tail: seq<byte>)
    requires i <= |data| && data[i..] == FieldBytes(u) + tail
    requires ValidField(u)
    ensures i + |FieldBytes(u)| <= |data| && data[i + |FieldBytes(u)|..] == tail
    ensures i < |data| && UnknownValue(data, i) == Ok((FieldBytes(u), i + |FieldBytes(u)|))
  {
    SliceParts(data, i, FieldBytes(u), tail);
    SkipFieldBytes(u, tail);
  }

  /** The tag of a written unknown field passes the tag checks and names a field the record does not know. */
  lemma UnknownTag(m: Message, data: seq<byte>, i: nat, u: UnknownField, tail: seq<byte>) returns (t: Tag)
    requires i <= |data| && data[i..] == FieldBytes(u) + tail
    requires ValidField(u) && u.num !in Known(m)
    ensures NextTag(data, i, Name(m)) == Ok(t) && t.fieldNum !in Known(m)
  {
    FirstTagOf(data, i, u, tail);
    var j := i + |Skip.Tag(u.num, WireTypeOf(u))|;
    NextTagOf(data, i, Name(m), u.num, WireTypeOf(u), j);
    t := Tag(u.num, WireTypeOf(u), u.num * 8 + WireTypeOf(u), j);
  }

  /** A tag varint with a field number in range and a wire type other than end-group is read as that tag. */
  lemma NextTagOf(data: seq<byte>, i: nat, message: string, num: nat, wireType: nat, j: nat)
    requires ReadVarint(data, i) == Ok((num * 8 + wireType, j))
    requires 1 <= num < Skip.FIELD_NUMBER_LIMIT && wireType < 8 && wireType != 4
    ensures NextTag(data, i, message) == Ok(Tag(num, wireType, num * 8 + wireType, j))
  {
    TagParts(num, wireType);
  }

  /** A loop turn on a tag the record does not know: skipMetapb's bytes are retained. */
  lemma DecodeUnknownStep(m: Message, m': Message, data: seq<byte>, i: nat, j: nat, t: Tag, b: seq<byte>)
    requires m' == AppendUnrecognized(m, b) && j == i + |b|
    requires i < |data| && NextTag(data, i, Name(m)) == Ok(t) && t.fieldNum !in Known(m)
    requires UnknownValue(data, i) == Ok((b, j))
    ensures Leads(m, data, i, m', j)
  {
    assert FieldStep(m, data, i, t) == Ok((m', j));
    StepTo(m, data, i, t, m', j);
  }

  /** The wire type each known field is declared with: 2 for bytes and embedded messages, 0 for integers. */
  function DeclaredWireType(m: Message, num: int): nat
  {
    match m
    case StoreM(_) => if num == 2 then 2 else 0
    case RegionM(_) => if 2 <= num <= 5 then 2 else 0
    case _ => 0
  }

  /** The Go field name each known field number stands for. */
  function FieldName(m: Message, num: int): string
  {
    match m
    case ClusterM(_) => if num == 1 then "Id" else "MaxPeerCount"
    case StoreM(_) => if num == 1 then "Id" else if num == 2 then "Address" else "State"
    case EpochM(_) => if num == 1 then "ConfVer" else "Version"
    case RegionM(_) =>
      if num == 1 then "Id" else if num == 2 then "StartKey" else if num == 3 then "EndKey"
      else if num == 4 then "RegionEpoch" else "Peers"
    case PeerM(_) => if num == 1 then "Id" else "StoreId"
  }

  /**
   * The two tag checks at the top of every loop turn: a tag with wire type 4 ends the
   * decoding with EndGroupForNonGroup, and otherwise a field number that is not positive
   * as an int32 ends it with IllegalTag, whatever follows.
   */
  lemma MalformedTagRejected(m: Message, data: seq<byte>, i: nat, wire: uint64, j: nat)
    requires i < |data| && ReadVarint(data, i) == Ok((wire, j))
    ensures wire % 8 == 4 ==> DecodeFrom(m, data, i) == Err(EndGroupForNonGroup(Name(m)))
    ensures wire % 8 != 4 && Int32Of(wire / 8) <= 0 ==>
      DecodeFrom(m, data, i) == Err(IllegalTag(Name(m), Int32Of(wire / 8), wire))
  {
  }

  /** A known field under a tag with another wire type than its declared one is rejected, naming the field. */
  lemma WrongWireTypeRejected(m: Message, data: seq<byte>, i: nat, t: Tag)
    requires i < |data| && NextTag(data, i, Name(m)) == Ok(t) && t.fieldNum in Known(m)
    requires t.wireType != DeclaredWireType(m, t.fieldNum)
    ensures DecodeFrom(m, data, i) == Err(WrongWireType(FieldName(m, t.fieldNum), t.wireType))
  {
    assert FieldStep(m, data, i, t) == Err(WrongWireType(FieldName(m, t.fieldNum), t.wireType));
  }

  /**
   * A bytes or embedded-message field whose length is negative as a Go int is rejected with
   * InvalidLength, and one whose length runs past the end of the input with UnexpectedEOF.
   */
  lemma BadLengthRejected(m: Message, data: seq<byte>, i: nat, t: Tag, len: uint64, j: nat)
    requires i < |data| && NextTag(data, i, Name(m)) == Ok(t) && t.fieldNum in Known(m)
    requires t.wireType == 2 == DeclaredWireType(m, t.fieldNum)
    requires ReadVarint(data, t.next) == Ok((len, j))
    ensures Signed64(len) < 0 ==> DecodeFrom(m, data, i) == Err(InvalidLength)
    ensures Signed64(len) >= 0 && j + Signed64(len) > |data| ==> DecodeFrom(m, data, i) == Err(UnexpectedEOF)
  {
    var e := if Signed64(len) < 0 then InvalidLength else UnexpectedEOF;
    if Signed64(len) < 0 || j + Signed64(len) > |data| {
      assert LengthDelimitedValue(data, t, FieldName(m, t.fieldNum)) == Err(e);
      assert FieldStep(m, data, i, t) == Err(e);
    }
  }
}
