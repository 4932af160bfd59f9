/**
 * Unmarshal inverts MarshalTo. Decoding the bytes a record's MarshalTo writes into any
 * message of the same kind merges the record into it (proto2 merge semantics); decoding
 * them into a reset message restores the record exactly.
 *
 * The proof walks the encoding field by field: each known field's tag passes the tag
 * checks and its value is read back, and the trailing unknown fields are retained as
 * they were.
 */
module RoundTrip {
  import opened Common
  import opened Wire
  import Skip
  import opened Metapb
  import opened Decode
  import opened CodecProperties

  /** A one-byte tag at index i passes the tag checks. */
  lemma TagAt(data: seq<byte>, i: nat, tag: byte, message: string) returns (t: Tag)
    requires 8 <= tag < 128 && tag % 8 != 4
    requires i < |data| && data[i] == tag
    ensures NextTag(data, i, message) == Ok(t)
    ensures t.fieldNum == tag / 8 && t.wireType == tag % 8 && t.next == i + 1
  {
    assert VarintBytes(tag) == [tag];
    assert data[i..i + 1] == [tag];
    ReadVarintRoundTrip(data, i, tag);
    t := Tag(tag / 8, tag % 8, tag, i + 1);
  }

  /** A varint field at index i: its tag passes the checks and its value is read back. */
  lemma VarintFieldAt(data: seq<byte>, i: nat, tag: byte, v: uint64, rest: seq<byte>, message: string, field: string)
    returns (t: Tag, j: nat)
    requires 8 <= tag < 128 && tag % 8 == 0
    requires i <= |data| && data[i..] == VarintField(tag, v) + rest
    ensures j == i + |VarintField(tag, v)| && j <= |data| && data[j..] == rest
    ensures NextTag(data, i, message) == Ok(t) && t.fieldNum == tag / 8 && t.next == i + 1
    ensures VarintValue(data, t, field) == Ok((v, j))
  {
    var vb := VarintBytes(v);
    assert data[i..] == [tag] + (vb + rest);
    SliceParts(data, i, [tag], vb + rest);
    t := TagAt(data, i, tag, message);
    SliceParts(data, i + 1, vb, rest);
    ReadVarintRoundTrip(data, i + 1, v);
    j := i + 1 + |vb|;
  }

  /** A length-delimited field at index i: its tag passes the checks and its payload is read back. */
  lemma LengthDelimitedAt(data: seq<byte>, i: nat, tag: byte, p: seq<byte>, rest: seq<byte>, message: string, field: string)
    returns (t: Tag, j: nat)
    requires 8 <= tag < 128 && tag % 8 == 2 && |data| < TWO_63
    requires i <= |data| && data[i..] == LengthDelimited(tag, p) + rest
    ensures j == i + |LengthDelimited(tag, p)| && j <= |data| && data[j..] == rest
    ensures NextTag(data, i, message) == Ok(t) && t.fieldNum == tag / 8 && t.next == i + 1
    ensures LengthDelimitedValue(data, t, field) == Ok((p, j))
  {
    var lb := VarintBytes(|p|);
    assert data[i..] == [tag] + (lb + (p + rest));
    SliceParts(data, i, [tag], lb + (p + rest));
    t := TagAt(data, i, tag, message);
    j := PayloadAt(data, i + 1, p, rest, t, field);
  }

  /** The length and payload of a length-delimited field, after its tag. */
  lemma PayloadAt(data: seq<byte>, k: nat, p: seq<byte>, rest: seq<byte>, t: Tag, field: string) returns (j: nat)
    requires t.wireType == 2 && t.next == k && |data| < TWO_63
    requires k <= |data| && data[k..] == VarintBytes(|p|) + (p + rest)
    ensures j == k + |VarintBytes(|p|)| + |p| && j <= |data| && data[j..] == rest
    ensures LengthDelimitedValue(data, t, field) == Ok((p, j))
  {
    var lb := VarintBytes(|p|);
    SliceParts(data, k, lb, p + rest);
    ReadVarintRoundTrip(data, k, |p|);
    SliceParts(data, k + |lb|, p, rest);
    j := k + |lb| + |p|;
  }

  /** The unknown fields a well-formed record retains, as a run of fields. */
  lemma RetainedFields(m: Message) returns (us: seq<Skip.UnknownField>)
    requires Retains(m)
    ensures Skip.FieldsBytes(us) == Unrecognized(m) && UnknownFieldsFor(us, Known(m))
  {
    us :| Skip.FieldsBytes(us) == Unrecognized(m) && UnknownFieldsFor(us, Known(m));
  }

  /** The unknown fields at the end of an encoding are appended to what the target retained. */
  lemma UnknownTail(m: Message, src: Message, data: seq<byte>, i: nat)
    requires Retains(src) && Known(m) == Known(src)
    requires i <= |data| && data[i..] == Unrecognized(src)
    ensures DecodeFrom(m, data, i) == Ok(AppendUnrecognized(m, Unrecognized(src)))
  {
    var us := RetainedFields(src);
    DecodeUnknownRun(m, data, i, us);
  }

  lemma {:induction false} ClusterMerge(into: Cluster, c: Cluster)
    requires WellFormed(ClusterM(c))
    ensures Decode.Decode(ClusterM(into), c.Bytes()) == Ok(Merge(ClusterM(into), ClusterM(c)))
  {
    var j := ClusterKnownFields(into, c);
    var k := into.(id := c.id, maxPeerCount := c.maxPeerCount);
    UnknownTail(ClusterM(k), ClusterM(c), c.Bytes(), j);
    LeadsTo(ClusterM(into), c.Bytes(), 0, ClusterM(k), j, Ok(AppendUnrecognized(ClusterM(k), c.unrecognized)));
  }

  /** The two known fields of a Cluster, decoded in order. */
  lemma ClusterKnownFields(into: Cluster, c: Cluster) returns (j: nat)
    ensures j <= |c.Bytes()| && c.Bytes()[j..] == c.unrecognized
    ensures Leads(ClusterM(into), c.Bytes(), 0, ClusterM(into.(id := c.id, maxPeerCount := c.maxPeerCount)), j)
  {
    var data := c.Bytes();
    var b := VarintField(0x10, c.maxPeerCount);
    assert data[0..] == VarintField(0x08, c.id) + (b + c.unrecognized);
    var k1 := into.(id := c.id);
    var j1 := ClusterIdStep(into, data, 0, c.id, b + c.unrecognized);
    j := ClusterMaxPeerCountStep(k1, data, j1, c.maxPeerCount, c.unrecognized);
    LeadsOn(ClusterM(into), ClusterM(k1), ClusterM(k1.(maxPeerCount := c.maxPeerCount)), data, 0, j1, j);
  }

  lemma ClusterIdStep(c: Cluster, data: seq<byte>, i: nat, v: uint64, rest: seq<byte>) returns (j: nat)
    requires i <= |data| && data[i..] == VarintField(0x08, v) + rest
    ensures j <= |data| && data[j..] == rest
    ensures Leads(ClusterM(c), data, i, ClusterM(c.(id := v)), j)
  {
    var t;
    t, j := VarintFieldAt(data, i, 0x08, v, rest, "Cluster", "Id");
    assert ClusterFieldStep(c, data, t) == Ok((ClusterM(c.(id := v)), j));
    assert FieldStep(ClusterM(c), data, i, t) == Ok((ClusterM(c.(id := v)), j));
    StepTo(ClusterM(c), data, i, t, ClusterM(c.(id := v)), j);
  }

  /** A scalar field that occurs twice keeps its last value: the loop assigns on every occurrence. */
  lemma LastOccurrenceWins(c: Cluster, a: uint64, b: uint64)
    ensures Decode.Decode(ClusterM(c), VarintField(0x08, a) + VarintField(0x08, b)) == Ok(ClusterM(c.(id := b)))
  {
    var data := VarintField(0x08, a) + VarintField(0x08, b);
    assert data[0..] == VarintField(0x08, a) + VarintField(0x08, b);
    var j1 := ClusterIdStep(c, data, 0, a, VarintField(0x08, b));
    assert data[j1..] == VarintField(0x08, b) + [];
    var j2 := ClusterIdStep(c.(id := a), data, j1, b, []);
    assert c.(id := a).(id := b) == c.(id := b);
    LeadsOn(ClusterM(c), ClusterM(c.(id := a)), ClusterM(c.(id := b)), data, 0, j1, j2);
    LeadsTo(ClusterM(c), data, 0, ClusterM(c.(id := b)), j2, Ok(ClusterM(c.(id := b))));
  }

  /**
   * A StartKey whose length varint says 2^63 - 1, with nothing after it: as generated,
   * postIndex wraps below the start of the slice, so the check lets it through and the
   * slice expression is out of range; the decoder of this model rejects it as UnexpectedEOF.
   */
  lemma PostIndexWraps(g: Region)
    ensures var data := [0x12] + VarintBytes(TWO_63 - 1);
      var j := |data|;
      ReadVarint(data, 1) == Ok((TWO_63 - 1, j))
      && LengthCheckAsWritten(|data|, j, TWO_63 - 1) == Ok(AddInt(j, TWO_63 - 1))
      && AddInt(j, TWO_63 - 1) < j
      && DecodeFrom(RegionM(g), data, 0) == Err(UnexpectedEOF)
  {
    var v: uint64 := TWO_63 - 1;
    var data := [0x12] + VarintBytes(v);
    VarintBytesAtMostTen(v);
    assert data[1..1 + |VarintBytes(v)|] == VarintBytes(v);
    ReadVarintRoundTrip(data, 1, v);
    var t := TagAt(data, 0, 0x12, "Region");
    BadLengthRejected(RegionM(g), data, 0, t, v, |data|);
  }

  /** A value that fits in 32 bits keeps all of them when truncated to 32 bits. */
  lemma Low32(v: uint32)
    ensures v % TWO_32 == v
  {
  }

  lemma ClusterMaxPeerCountStep(c: Cluster, data: seq<byte>, i: nat, v: uint32, rest: seq<byte>) returns (j: nat)
    requires i <= |data| && data[i..] == VarintField(0x10, v) + rest
    ensures j <= |data| && data[j..] == rest
    ensures Leads(ClusterM(c), data, i, ClusterM(c.(maxPeerCount := v)), j)
  {
    var t;
    t, j := VarintFieldAt(data, i, 0x10, v, rest, "Cluster", "MaxPeerCount");
    Low32(v);
    assert ClusterFieldStep(c, data, t) == Ok((ClusterM(c.(maxPeerCount := v)), j));
    assert FieldStep(ClusterM(c), data, i, t) == Ok((ClusterM(c.(maxPeerCount := v)), j));
    StepTo(ClusterM(c), data, i, t, ClusterM(c.(maxPeerCount := v)), j);
  }

  lemma {:induction false} StoreMerge(into: Store, s: Store)
    requires WellFormed(StoreM(s))
    ensures Decode.Decode(StoreM(into), s.Bytes()) == Ok(Merge(StoreM(into), StoreM(s)))
  {
    var j := StoreKnownFields(into, s);
    var s3 := into.(id := s.id, address := s.address, state := s.state);
    UnknownTail(StoreM(s3), StoreM(s), s.Bytes(), j);
    LeadsTo(StoreM(into), s.Bytes(), 0, StoreM(s3), j, Ok(AppendUnrecognized(StoreM(s3), s.unrecognized)));
  }

  /** The three known fields of a store, decoded in order. */
  lemma StoreKnownFields(into: Store, s: Store) returns (j: nat)
    requires |s.Bytes()| < TWO_63
    ensures j <= |s.Bytes()| && s.Bytes()[j..] == s.unrecognized
    ensures Leads(StoreM(into), s.Bytes(), 0, StoreM(into.(id := s.id, address := s.address, state := s.state)), j)
  {
    var data := s.Bytes();
    var b := LengthDelimited(0x12, s.address);
    var c := VarintField(0x18, Uint64OfInt32(s.state));
    assert data[0..] == VarintField(0x08, s.id) + (b + (c + s.unrecognized));
    var s1 := into.(id := s.id);
    var s2 := s1.(address := s.address);
    var j1 := StoreIdStep(into, data, 0, s.id, b + (c + s.unrecognized));
    var j2 := StoreAddressStep(s1, data, j1, s.address, c + s.unrecognized);
    j := StoreStateStep(s2, data, j2, s.state, s.unrecognized);
    LeadsOn(StoreM(into), StoreM(s1), StoreM(s2), data, 0, j1, j2);
    LeadsOn(StoreM(into), StoreM(s2), StoreM(s2.(state := s.state)), data, 0, j2, j);
  }

  lemma StoreIdStep(s: Store, data: seq<byte>, i: nat, v: uint64, rest: seq<byte>) returns (j: nat)
    requires i <= |data| && data[i..] == VarintField(0x08, v) + rest
    ensures j <= |data| && data[j..] == rest
    ensures Leads(StoreM(s), data, i, StoreM(s.(id := v)), j)
  {
    var t;
    t, j := VarintFieldAt(data, i, 0x08, v, rest, "Store", "Id");
    assert StoreFieldStep(s, data, t) == Ok((StoreM(s.(id := v)), j));
    assert FieldStep(StoreM(s), data, i, t) == Ok((StoreM(s.(id := v)), j));
    StepTo(StoreM(s), data, i, t, StoreM(s.(id := v)), j);
  }

  lemma StoreAddressStep(s: Store, data: seq<byte>, i: nat, a: seq<byte>, rest: seq<byte>) returns (j: nat)
    requires |data| < TWO_63 && i <= |data| && data[i..] == LengthDelimited(0x12, a) + rest
    ensures j <= |data| && data[j..] == rest
    ensures Leads(StoreM(s), data, i, StoreM(s.(address := a)), j)
  {
    var t;
    t, j := LengthDelimitedAt(data, i, 0x12, a, rest, "Store", "Address");
    assert StoreFieldStep(s, data, t) == Ok((StoreM(s.(address := a)), j));
    assert FieldStep(StoreM(s), data, i, t) == Ok((StoreM(s.(address := a)), j));
    StepTo(StoreM(s), data, i, t, StoreM(s.(address := a)), j);
  }

  /** The state goes out as the varint of its sign extension and comes back as the same int32. */
  lemma StoreStateStep(s: Store, data: seq<byte>, i: nat, state: int32, rest: seq<byte>) returns (j: nat)
    requires i <= |data| && data[i..] == VarintField(0x18, Uint64OfInt32(state)) + rest
    ensures j <= |data| && data[j..] == rest
    ensures Leads(StoreM(s), data, i, StoreM(s.(state := state)), j)
  {
    var t;
    t, j := VarintFieldAt(data, i, 0x18, Uint64OfInt32(state), rest, "Store", "State");
    Int32Uint64RoundTrip(state);
    assert StoreFieldStep(s, data, t) == Ok((StoreM(s.(state := state)), j));
    assert FieldStep(StoreM(s), data, i, t) == Ok((StoreM(s.(state := state)), j));
    StepTo(StoreM(s), data, i, t, StoreM(s.(state := state)), j);
  }

  lemma {:induction false} EpochMerge(into: RegionEpoch, e: RegionEpoch)
    requires WellFormed(EpochM(e))
    ensures Decode.Decode(EpochM(into), e.Bytes()) == Ok(EpochM(MergeEpoch(into, e)))
  {
    var j := EpochKnownFields(into, e);
    var k := into.(confVer := e.confVer, version := e.version);
    UnknownTail(EpochM(k), EpochM(e), e.Bytes(), j);
    LeadsTo(EpochM(into), e.Bytes(), 0, EpochM(k), j, Ok(AppendUnrecognized(EpochM(k), e.unrecognized)));
  }

  /** The two known fields of a RegionEpoch, decoded in order. */
  lemma EpochKnownFields(into: RegionEpoch, e: RegionEpoch) returns (j: nat)
    ensures j <= |e.Bytes()| && e.Bytes()[j..] == e.unrecognized
    ensures Leads(EpochM(into), e.Bytes(), 0, EpochM(into.(confVer := e.confVer, version := e.version)), j)
  {
    var data := e.Bytes();
    var b := VarintField(0x10, e.version);
    assert data[0..] == VarintField(0x08, e.confVer) + (b + e.unrecognized);
    var k1 := into.(confVer := e.confVer);
    var j1 := EpochConfVerStep(into, data, 0, e.confVer, b + e.unrecognized);
    j := EpochVersionStep(k1, data, j1, e.version, e.unrecognized);
    LeadsOn(EpochM(into), EpochM(k1), EpochM(k1.(version := e.version)), data, 0, j1, j);
  }

  lemma EpochConfVerStep(e: RegionEpoch, data: seq<byte>, i: nat, v: uint64, rest: seq<byte>) returns (j: nat)
    requires i <= |data| && data[i..] == VarintField(0x08, v) + rest
    ensures j <= |data| && data[j..] == rest
    ensures Leads(EpochM(e), data, i, EpochM(e.(confVer := v)), j)
  {
    var t;
    t, j := VarintFieldAt(data, i, 0x08, v, rest, "RegionEpoch", "ConfVer");
    assert EpochFieldStep(e, data, t) == Ok((EpochM(e.(confVer := v)), j));
    assert FieldStep(EpochM(e), data, i, t) == Ok((EpochM(e.(confVer := v)), j));
    StepTo(EpochM(e), data, i, t, EpochM(e.(confVer := v)), j);
  }

  lemma EpochVersionStep(e: RegionEpoch, data: seq<byte>, i: nat, v: uint64, rest: seq<byte>) returns (j: nat)
    requires i <= |data| && data[i..] == VarintField(0x10, v) + rest
    ensures j <= |data| && data[j..] == rest
    ensures Leads(EpochM(e), data, i, EpochM(e.(version := v)), j)
  {
    var t;
    t, j := VarintFieldAt(data, i, 0x10, v, rest, "RegionEpoch", "Version");
    assert EpochFieldStep(e, data, t) == Ok((EpochM(e.(version := v)), j));
    assert FieldStep(EpochM(e), data, i, t) == Ok((EpochM(e.(version := v)), j));
    StepTo(EpochM(e), data, i, t, EpochM(e.(version := v)), j);
  }

  lemma {:induction false} PeerMerge(into: Peer, p: Peer)
    requires WellFormed(PeerM(p))
    ensures Decode.Decode(PeerM(into), p.Bytes()) == Ok(Merge(PeerM(into), PeerM(p)))
  {
    var j := PeerKnownFields(into, p);
    var k := into.(id := p.id, storeId := p.storeId);
    UnknownTail(PeerM(k), PeerM(p), p.Bytes(), j);
    LeadsTo(PeerM(into), p.Bytes(), 0, PeerM(k), j, Ok(AppendUnrecognized(PeerM(k), p.unrecognized)));
  }

  /** The two known fields of a Peer, decoded in order. */
  lemma PeerKnownFields(into: Peer, p: Peer) returns (j: nat)
    ensures j <= |p.Bytes()| && p.Bytes()[j..] == p.unrecognized
    ensures Leads(PeerM(into), p.Bytes(), 0, PeerM(into.(id := p.id, storeId := p.storeId)), j)
  {
    var data := p.Bytes();
    var b := VarintField(0x10, p.storeId);
    assert data[0..] == VarintField(0x08, p.id) + (b + p.unrecognized);
    var k1 := into.(id := p.id);
    var j1 := PeerIdStep(into, data, 0, p.id, b + p.unrecognized);
    j := PeerStoreIdStep(k1, data, j1, p.storeId, p.unrecognized);
    LeadsOn(PeerM(into), PeerM(k1), PeerM(k1.(storeId := p.storeId)), data, 0, j1, j);
  }

  lemma PeerIdStep(p: Peer, data: seq<byte>, i: nat, v: uint64, rest: seq<byte>) returns (j: nat)
    requires i <= |data| && data[i..] == VarintField(0x08, v) + rest
    ensures j <= |data| && data[j..] == rest
    ensures Leads(PeerM(p), data, i, PeerM(p.(id := v)), j)
  {
    var t;
    t, j := VarintFieldAt(data, i, 0x08, v, rest, "Peer", "Id");
    assert PeerFieldStep(p, data, t) == Ok((PeerM(p.(id := v)), j));
    assert FieldStep(PeerM(p), data, i, t) == Ok((PeerM(p.(id := v)), j));
    StepTo(PeerM(p), data, i, t, PeerM(p.(id := v)), j);
  }

  lemma PeerStoreIdStep(p: Peer, data: seq<byte>, i: nat, v: uint64, rest: seq<byte>) returns (j: nat)
    requires i <= |data| && data[i..] == VarintField(0x10, v) + rest
    ensures j <= |data| && data[j..] == rest
    ensures Leads(PeerM(p), data, i, PeerM(p.(storeId := v)), j)
  {
    var t;
    t, j := VarintFieldAt(data, i, 0x10, v, rest, "Peer", "StoreId");
    assert PeerFieldStep(p, data, t) == Ok((PeerM(p.(storeId := v)), j));
    assert FieldStep(PeerM(p), data, i, t) == Ok((PeerM(p.(storeId := v)), j));
    StepTo(PeerM(p), data, i, t, PeerM(p.(storeId := v)), j);
  }

  /** Region g after decoding an optional key field: a present key overwrites, an absent one leaves g's. */
  function WithKey(g: Region, tag: byte, key: Option<seq<byte>>): Region
  {
    if key.None? then g
    else if tag == 0x12 then g.(startKey := key)
    else g.(endKey := key)
  }

  /** Region g after decoding an optional epoch field: a present epoch merges into g's (or a fresh one). */
  function WithEpoch(g: Region, epoch: Option<RegionEpoch>): Region
  {
    if epoch.None? then g
    else g.(regionEpoch := Some(MergeEpoch(if g.regionEpoch.Some? then g.regionEpoch.value else EMPTY_EPOCH, epoch.value)))
  }

  lemma RegionIdStep(g: Region, data: seq<byte>, i: nat, v: uint64, rest: seq<byte>) returns (j: nat)
    requires i <= |data| && data[i..] == VarintField(0x08, v) + rest
    ensures j <= |data| && data[j..] == rest
    ensures Leads(RegionM(g), data, i, RegionM(g.(id := v)), j)
  {
    var t;
    t, j := VarintFieldAt(data, i, 0x08, v, rest, "Region", "Id");
    assert RegionFieldStep(g, data, t) == Ok((RegionM(g.(id := v)), j));
    assert FieldStep(RegionM(g), data, i, t) == Ok((RegionM(g.(id := v)), j));
    StepTo(RegionM(g), data, i, t, RegionM(g.(id := v)), j);
  }

  /** An optional bytes field of a region (start or end key) at index i. */
  lemma KeyField(g: Region, g': Region, data: seq<byte>, i: nat, j: nat, tag: byte, key: Option<seq<byte>>, rest: seq<byte>)
    requires tag == 0x12 || tag == 0x1a
    requires g' == WithKey(g, tag, key) && j == i + |OptionalBytes(tag, key)|
    requires |data| < TWO_63 && i <= |data| && data[i..] == OptionalBytes(tag, key) + rest
    ensures j <= |data| && data[j..] == rest
    ensures Leads(RegionM(g), data, i, RegionM(g'), j)
  {
    if key.None? {
      assert data[i..] == rest;
      LeadsSame(RegionM(g), data, i);
    } else if tag == 0x12 {
      StartKeyStep(g, g', data, i, j, key.value, rest);
    } else {
      EndKeyStep(g, g', data, i, j, key.value, rest);
    }
  }

  lemma StartKeyStep(g: Region, g': Region, data: seq<byte>, i: nat, j: nat, k: seq<byte>, rest: seq<byte>)
    requires g' == g.(startKey := Some(k)) && j == i + |LengthDelimited(0x12, k)|
    requires |data| < TWO_63 && i <= |data| && data[i..] == LengthDelimited(0x12, k) + rest
    ensures j <= |data| && data[j..] == rest
    ensures Leads(RegionM(g), data, i, RegionM(g'), j)
  {
    var t, k' := LengthDelimitedAt(data, i, 0x12, k, rest, "Region", "StartKey");
    assert RegionFieldStep(g, data, t) == Ok((RegionM(g'), j));
    assert FieldStep(RegionM(g), data, i, t) == Ok((RegionM(g'), j));
    StepTo(RegionM(g), data, i, t, RegionM(g'), j);
  }

  lemma EndKeyStep(g: Region, g': Region, data: seq<byte>, i: nat, j: nat, k: seq<byte>, rest: seq<byte>)
    requires g' == g.(endKey := Some(k)) && j == i + |LengthDelimited(0x1a, k)|
    requires |data| < TWO_63 && i <= |data| && data[i..] == LengthDelimited(0x1a, k) + rest
    ensures j <= |data| && data[j..] == rest
    ensures Leads(RegionM(g), data, i, RegionM(g'), j)
  {
    var t, k' := LengthDelimitedAt(data, i, 0x1a, k, rest, "Region", "EndKey");
    assert RegionFieldStep(g, data, t) == Ok((RegionM(g'), j));
    assert FieldStep(RegionM(g), data, i, t) == Ok((RegionM(g'), j));
    StepTo(RegionM(g), data, i, t, RegionM(g'), j);
  }

  /** The region epoch field at index i. */
  lemma EpochFieldAt(g: Region, g': Region, data: seq<byte>, i: nat, j: nat, epoch: Option<RegionEpoch>, rest: seq<byte>)
    requires epoch.Some? ==> Retains(EpochM(epoch.value))
    requires g' == WithEpoch(g, epoch) && j == i + |EpochField(epoch)|
    requires |data| < TWO_63 && i <= |data| && data[i..] == EpochField(epoch) + rest
    ensures j <= |data| && data[j..] == rest
    ensures Leads(RegionM(g), data, i, RegionM(g'), j)
  {
    if epoch.None? {
      assert data[i..] == rest;
      LeadsSame(RegionM(g), data, i);
    } else {
      EpochStep(g, g', data, i, j, epoch.value, rest);
    }
  }

  /** A present epoch is decoded into the region's epoch (or a fresh one) and merged. */
  lemma EpochStep(g: Region, g': Region, data: seq<byte>, i: nat, j: nat, e: RegionEpoch, rest: seq<byte>)
    requires Retains(EpochM(e))
    requires g' == WithEpoch(g, Some(e)) && j == i + |LengthDelimited(0x22, e.Bytes())|
    requires |data| < TWO_63 && i <= |data| && data[i..] == LengthDelimited(0x22, e.Bytes()) + rest
    ensures j <= |data| && data[j..] == rest
    ensures Leads(RegionM(g), data, i, RegionM(g'), j)
  {
    var into := if g.regionEpoch.Some? then g.regionEpoch.value else EMPTY_EPOCH;
    assert |e.Bytes()| < TWO_63;
    EpochMerge(into, e);
    assert DecodeFrom(EpochM(into), e.Bytes(), 0) == Ok(EpochM(MergeEpoch(into, e)));
    EmbeddedEpochStep(g, data, i, j, e.Bytes(), MergeEpoch(into, e), rest);
  }

  /** An epoch field whose payload b decodes, into the region's epoch or a fresh one, to em. */
  lemma EmbeddedEpochStep(g: Region, data: seq<byte>, i: nat, j: nat, b: seq<byte>, em: RegionEpoch, rest: seq<byte>)
    requires j == i + |LengthDelimited(0x22, b)|
    requires |data| < TWO_63 && i <= |data| && data[i..] == LengthDelimited(0x22, b) + rest
    requires DecodeFrom(EpochM(if g.regionEpoch.Some? then g.regionEpoch.value else EMPTY_EPOCH), b, 0) == Ok(EpochM(em))
    ensures j <= |data| && data[j..] == rest
    ensures Leads(RegionM(g), data, i, RegionM(g.(regionEpoch := Some(em))), j)
  {
    var t, k := LengthDelimitedAt(data, i, 0x22, b, rest, "Region", "RegionEpoch");
    assert k == j;
    RegionEpochBranch(g, data, i, t, b, j, em);
  }

  /** The peers fields from index i: each peer is decoded into a fresh Peer and appended. */
  lemma {:induction false} PeersAt(g: Region, g': Region, data: seq<byte>, i: nat, j: nat, peers: seq<Peer>, rest: seq<byte>)
    requires forall p :: p in peers ==> Retains(PeerM(p))
    requires g' == g.(peers := g.peers + peers) && j == i + |PeersBytes(peers)|
    requires |data| < TWO_63 && i <= |data| && data[i..] == PeersBytes(peers) + rest
    ensures j <= |data| && data[j..] == rest
    ensures Leads(RegionM(g), data, i, RegionM(g'), j)
    decreases |peers|
  {
    if peers == [] {
      assert g.peers + peers == g.peers;
      LeadsSame(RegionM(g), data, i);
    } else {
      var p := peers[0];
      var tail := PeersBytes(peers[1..]);
      PeersLayout(peers, rest);
      assert p in peers;
      var k := PeerStep(g, data, i, p, tail + rest);
      var g1 := g.(peers := g.peers + [p]);
      assert forall q :: q in peers[1..] ==> q in peers;
      AppendFirst(g.peers, peers);
      PeersAt(g1, g', data, k, j, peers[1..], rest);
      LeadsOn(RegionM(g), RegionM(g1), RegionM(g'), data, i, k, j);
    }
  }

  /** A loop turn over a region's epoch field, given what the payload decodes to. */
  lemma RegionEpochBranch(g: Region, data: seq<byte>, i: nat, t: Tag, b: seq<byte>, j: nat, em: RegionEpoch)
    requires i < |data| && NextTag(data, i, "Region") == Ok(t)
    requires t.fieldNum == 4 && LengthDelimitedValue(data, t, "RegionEpoch") == Ok((b, j))
    requires DecodeFrom(EpochM(if g.regionEpoch.Some? then g.regionEpoch.value else EMPTY_EPOCH), b, 0) == Ok(EpochM(em))
    ensures Leads(RegionM(g), data, i, RegionM(g.(regionEpoch := Some(em))), j)
  {
    assert RegionFieldStep(g, data, t) == Ok((RegionM(g.(regionEpoch := Some(em))), j));
    assert FieldStep(RegionM(g), data, i, t) == Ok((RegionM(g.(regionEpoch := Some(em))), j));
    StepTo(RegionM(g), data, i, t, RegionM(g.(regionEpoch := Some(em))), j);
  }

  /** A loop turn over a region's peers field, given what the payload decodes to. */
  lemma RegionPeerBranch(g: Region, data: seq<byte>, i: nat, t: Tag, b: seq<byte>, j: nat, p: Peer)
    requires i < |data| && NextTag(data, i, "Region") == Ok(t)
    requires t.fieldNum == 5 && LengthDelimitedValue(data, t, "Peers") == Ok((b, j))
    requires DecodeFrom(PeerM(EMPTY_PEER), b, 0) == Ok(PeerM(p))
    ensures Leads(RegionM(g), data, i, RegionM(g.(peers := g.peers + [p])), j)
  {
    assert RegionFieldStep(g, data, t) == Ok((RegionM(g.(peers := g.peers + [p])), j));
    assert FieldStep(RegionM(g), data, i, t) == Ok((RegionM(g.(peers := g.peers + [p])), j));
    StepTo(RegionM(g), data, i, t, RegionM(g.(peers := g.peers + [p])), j);
  }

  /** Appending a sequence is appending its first element, then the rest. */
  lemma AppendFirst(xs: seq<Peer>, ys: seq<Peer>)
    requires ys != []
    ensures (xs + [ys[0]]) + ys[1..] == xs + ys
  {
    assert ys == [ys[0]] + ys[1..];
  }

  /** The first peer's field, then the others' and whatever follows them. */
  lemma PeersLayout(peers: seq<Peer>, rest: seq<byte>)
    requires peers != []
    ensures PeersBytes(peers) + rest == LengthDelimited(0x2a, peers[0].Bytes()) + (PeersBytes(peers[1..]) + rest)
  {
  }

  /** One peers field: the peer is decoded into a fresh Peer, which is appended. */
  lemma PeerStep(g: Region, data: seq<byte>, i: nat, p: Peer, rest: seq<byte>) returns (j: nat)
    requires Retains(PeerM(p))
    requires |data| < TWO_63 && i <= |data| && data[i..] == LengthDelimited(0x2a, p.Bytes()) + rest
    ensures j == i + |LengthDelimited(0x2a, p.Bytes())| && data[j..] == rest
    ensures Leads(RegionM(g), data, i, RegionM(g.(peers := g.peers + [p])), j)
  {
    j := i + |LengthDelimited(0x2a, p.Bytes())|;
    assert |p.Bytes()| < TWO_63;
    PeerMerge(EMPTY_PEER, p);
    assert p.(unrecognized := [] + p.unrecognized) == p;
    assert DecodeFrom(PeerM(EMPTY_PEER), p.Bytes(), 0) == Ok(PeerM(p));
    EmbeddedPeerStep(g, data, i, j, p.Bytes(), p, rest);
  }

  /** A peers field whose payload b decodes, into a fresh Peer, to p. */
  lemma EmbeddedPeerStep(g: Region, data: seq<byte>, i: nat, j: nat, b: seq<byte>, p: Peer, rest: seq<byte>)
    requires j == i + |LengthDelimited(0x2a, b)|
    requires |data| < TWO_63 && i <= |data| && data[i..] == LengthDelimited(0x2a, b) + rest
    requires DecodeFrom(PeerM(EMPTY_PEER), b, 0) == Ok(PeerM(p))
    ensures j <= |data| && data[j..] == rest
    ensures Leads(RegionM(g), data, i, RegionM(g.(peers := g.peers + [p])), j)
  {
    var t, k := LengthDelimitedAt(data, i, 0x2a, b, rest, "Region", "Peers");
    assert k == j;
    RegionPeerBranch(g, data, i, t, b, j, p);
  }

  /** Fields 2 to 4 of region g, decoded into region h. */
  lemma KeysAndEpoch(h: Region, g: Region, data: seq<byte>, i: nat) returns (j: nat)
    requires g.regionEpoch.Some? ==> Retains(EpochM(g.regionEpoch.value))
    requires |data| < TWO_63 && i <= |data|
    requires data[i..] == OptionalBytes(0x12, g.startKey) + (OptionalBytes(0x1a, g.endKey) + (EpochField(g.regionEpoch) + g.TailBytes()))
    ensures j <= |data| && data[j..] == g.TailBytes()
    ensures Leads(RegionM(h), data, i, RegionM(WithEpoch(WithKey(WithKey(h, 0x12, g.startKey), 0x1a, g.endKey), g.regionEpoch)), j)
  {
    var sk := OptionalBytes(0x12, g.startKey);
    var rest := OptionalBytes(0x1a, g.endKey) + (EpochField(g.regionEpoch) + g.TailBytes());
    var g2 := WithKey(h, 0x12, g.startKey);
    var j2 := i + |sk|;
    KeyField(h, g2, data, i, j2, 0x12, g.startKey, rest);
    j := EndKeyAndEpoch(g2, g, data, j2);
    LeadsOn(RegionM(h), RegionM(g2), RegionM(WithEpoch(WithKey(g2, 0x1a, g.endKey), g.regionEpoch)), data, i, j2, j);
  }

  /** Fields 3 and 4 of region g, decoded into region h. */
  lemma EndKeyAndEpoch(h: Region, g: Region, data: seq<byte>, i: nat) returns (j: nat)
    requires g.regionEpoch.Some? ==> Retains(EpochM(g.regionEpoch.value))
    requires |data| < TWO_63 && i <= |data|
    requires data[i..] == OptionalBytes(0x1a, g.endKey) + (EpochField(g.regionEpoch) + g.TailBytes())
    ensures j <= |data| && data[j..] == g.TailBytes()
    ensures Leads(RegionM(h), data, i, RegionM(WithEpoch(WithKey(h, 0x1a, g.endKey), g.regionEpoch)), j)
  {
    var ek := OptionalBytes(0x1a, g.endKey);
    var g3 := WithKey(h, 0x1a, g.endKey);
    var g4 := WithEpoch(g3, g.regionEpoch);
    var j3 := i + |ek|;
    j := j3 + |EpochField(g.regionEpoch)|;
    KeyField(h, g3, data, i, j3, 0x1a, g.endKey, EpochField(g.regionEpoch) + g.TailBytes());
    EpochFieldAt(g3, g4, data, j3, j, g.regionEpoch, g.TailBytes());
    LeadsOn(RegionM(h), RegionM(g3), RegionM(g4), data, i, j3, j);
  }

  /** A region's encoding, field by field. */
  lemma RegionLayout(g: Region)
    ensures g.Bytes() == VarintField(0x08, g.id) + (OptionalBytes(0x12, g.startKey) + (OptionalBytes(0x1a, g.endKey)
      + (EpochField(g.regionEpoch) + g.TailBytes())))
  {
    var v, a, b, c, t := VarintField(0x08, g.id), OptionalBytes(0x12, g.startKey), OptionalBytes(0x1a, g.endKey),
      EpochField(g.regionEpoch), g.TailBytes();
    calc {
      g.Bytes();
      (v + (a + b + c)) + t;
      { SeqAssoc(v, a + b + c, t); }
      v + ((a + b + c) + t);
      { SeqAssoc(a + b, c, t); SeqAssoc(a, b, c + t); }
      v + (a + (b + (c + t)));
    }
  }

  lemma SeqAssoc(x: seq<byte>, y: seq<byte>, z: seq<byte>)
    ensures (x + y) + z == x + (y + z)
  {
  }

  /** Fields 1 to 4 of a region: the id, the keys and the epoch. */
  lemma RegionHead(into: Region, g: Region) returns (j: nat)
    requires |g.Bytes()| < TWO_63
    requires g.regionEpoch.Some? ==> Retains(EpochM(g.regionEpoch.value))
    ensures j <= |g.Bytes()| && g.Bytes()[j..] == PeersBytes(g.peers) + g.unrecognized
    ensures Leads(RegionM(into), g.Bytes(), 0, RegionM(WithEpoch(WithKey(WithKey(into.(id := g.id), 0x12, g.startKey), 0x1a, g.endKey), g.regionEpoch)), j)
  {
    var data := g.Bytes();
    var h := into.(id := g.id);
    var rest := OptionalBytes(0x12, g.startKey) + (OptionalBytes(0x1a, g.endKey) + (EpochField(g.regionEpoch) + g.TailBytes()));
    RegionLayout(g);
    assert data[0..] == data;
    var j1 := RegionIdStep(into, data, 0, g.id, rest);
    j := KeysAndEpoch(h, g, data, j1);
    LeadsOn(RegionM(into), RegionM(h), RegionM(WithEpoch(WithKey(WithKey(h, 0x12, g.startKey), 0x1a, g.endKey), g.regionEpoch)), data, 0, j1, j);
  }

  lemma {:induction false} RegionMerge(into: Region, g: Region)
    requires WellFormed(RegionM(g))
    ensures Decode.Decode(RegionM(into), g.Bytes()) == Ok(Merge(RegionM(into), RegionM(g)))
  {
    var j := RegionKnownFields(into, g);
    var k := KnownMerged(into, g);
    UnknownTail(RegionM(k), RegionM(g), g.Bytes(), j);
    LeadsTo(RegionM(into), g.Bytes(), 0, RegionM(k), j, Ok(AppendUnrecognized(RegionM(k), g.unrecognized)));
    assert AppendUnrecognized(RegionM(k), g.unrecognized) == Merge(RegionM(into), RegionM(g));
  }

  /** Region into after the known fields of g are decoded into it. */
  function KnownMerged(into: Region, g: Region): Region
  {
    var h := WithEpoch(WithKey(WithKey(into.(id := g.id), 0x12, g.startKey), 0x1a, g.endKey), g.regionEpoch);
    h.(peers := h.peers + g.peers)
  }

  /** Fields 1 to 5 of a region, decoded in order. */
  lemma RegionKnownFields(into: Region, g: Region) returns (j: nat)
    requires |g.Bytes()| < TWO_63
    requires g.regionEpoch.Some? ==> Retains(EpochM(g.regionEpoch.value))
    requires forall p :: p in g.peers ==> Retains(PeerM(p))
    ensures j <= |g.Bytes()| && g.Bytes()[j..] == g.unrecognized
    ensures Leads(RegionM(into), g.Bytes(), 0, RegionM(KnownMerged(into, g)), j)
  {
    var data := g.Bytes();
    var j4 := RegionHead(into, g);
    var g4 := WithEpoch(WithKey(WithKey(into.(id := g.id), 0x12, g.startKey), 0x1a, g.endKey), g.regionEpoch);
    j := j4 + |PeersBytes(g.peers)|;
    var g5 := g4.(peers := g4.peers + g.peers);
    PeersAt(g4, g5, data, j4, j, g.peers, g.unrecognized);
    LeadsOn(RegionM(into), RegionM(g4), RegionM(g5), data, 0, j4, j);
  }

  /**
   * Unmarshal of what MarshalTo wrote merges the record into the target: fields present
   * in the record overwrite the target's, the epoch merges, peers and unknown fields are
   * appended.
   */
  lemma DecodeEncoding(into: Message, m: Message)
    requires SameKind(into, m) && WellFormed(m)
    ensures Decode.Decode(into, Encoding(m)) == Ok(Merge(into, m))
  {
    match m
    case ClusterM(c) => ClusterMerge(into.cluster, c);
    case StoreM(s) => StoreMerge(into.store, s);
    case EpochM(e) => EpochMerge(into.epoch, e);
    case RegionM(g) => RegionMerge(into.region, g);
    case PeerM(p) => PeerMerge(into.peer, p);
  }

  /** Reset, then Unmarshal of what MarshalTo wrote, gives back the record. */
  lemma DecodeAfterReset(m: Message)
    requires WellFormed(m)
    ensures Decode.Decode(Reset(m), Encoding(m)) == Ok(m)
  {
    DecodeEncoding(Reset(m), m);
    match m
    case ClusterM(c) => assert [] + c.unrecognized == c.unrecognized;
    case StoreM(s) => assert [] + s.unrecognized == s.unrecognized;
    case EpochM(e) => assert [] + e.unrecognized == e.unrecognized;
    case PeerM(p) => assert [] + p.unrecognized == p.unrecognized;
    case RegionM(g) =>
      assert [] + g.unrecognized == g.unrecognized;
      assert [] + g.peers == g.peers;
      if g.regionEpoch.Some? {
        assert [] + g.regionEpoch.value.unrecognized == g.regionEpoch.value.unrecognized;
      }
  }
}
