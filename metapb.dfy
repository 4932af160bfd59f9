/**
 * The five records of the metapb package and their encoding: Size, MarshalTo and
 * Marshal of Cluster, Store, RegionEpoch, Peer and Region.
 *
 * Each record's Bytes() is the exact byte string its MarshalTo writes; Size() returns
 * its length and MarshalTo splices it into the destination buffer at the offset where
 * the Go code's sub-slice data[i:] begins. An empty unrecognized field stands for both
 * nil and an empty slice: the encoders write nothing for either.
 */
module Metapb {
  import opened Common
  import opened Wire

  /** The values of the StoreState enum. Decoding keeps any int32, named or not. */
  const STORE_STATE_UP: int32 := 0
  const STORE_STATE_OFFLINE: int32 := 1
  const STORE_STATE_TOMBSTONE: int32 := 2

  /** A varint field: the tag byte, then the varint. */
  function VarintField(tag: byte, v: nat): seq<byte>
  {
    [tag] + VarintBytes(v)
  }

  /** A tag byte, a varint length and the payload: how bytes fields and sub-messages are written. */
  function LengthDelimited(tag: byte, payload: seq<byte>): seq<byte>
  {
    VarintField(tag, |payload|) + payload
  }

  function EpochField(epoch: Option<RegionEpoch>): seq<byte>
  {
    match epoch
    case None => []
    case Some(e) => LengthDelimited(0x22, e.Bytes())
  }

  function OptionalBytes(tag: byte, field: Option<seq<byte>>): seq<byte>
  {
    match field
    case None => []
    case Some(b) => LengthDelimited(tag, b)
  }

  datatype Cluster = Cluster(id: uint64, maxPeerCount: uint32, unrecognized: seq<byte>)
  {
    function Bytes(): seq<byte>
    {
      VarintField(0x08, id) + VarintField(0x10, maxPeerCount) + unrecognized
    }

    method Size() returns (n: nat)
      ensures n == |Bytes()|
    {
      var s := SovMetapb(id);
      n := 1 + s;
      s := SovMetapb(maxPeerCount);
      n := n + 1 + s;
      n := n + |unrecognized|;
    }

    method MarshalTo(data: array<byte>, offset: nat) returns (n: nat)
      requires offset + |Bytes()| <= data.Length
      modifies data
      ensures n == |Bytes()|
      ensures data[..] == Splice(old(data[..]), offset, Bytes())
    {
      ghost var before := data[..];
      var i := WriteVarintField(data, offset, 0x08, id);
      ghost var w := VarintField(0x08, id);
      i := WriteVarintField(data, i, 0x10, maxPeerCount);
      assert data[..] == Splice(before, offset, w + VarintField(0x10, maxPeerCount)) by {
        SpliceTwice(before, offset, w, VarintField(0x10, maxPeerCount));
      }
      w := w + VarintField(0x10, maxPeerCount);
      i := CopyInto(data, i, unrecognized);
      assert data[..] == Splice(before, offset, w + unrecognized) by {
        SpliceTwice(before, offset, w, unrecognized);
      }
      w := w + unrecognized;
      assert w == Bytes();
      n := i - offset;
    }

    method Marshal() returns (data: seq<byte>)
      requires |Bytes()| < TWO_63
      ensures data == Bytes()
    {
      var size := Size();
      var buffer := new byte[size];
      ghost var initial := buffer[..];
      var n := MarshalTo(buffer, 0);
      SpliceParts(initial, 0, Bytes());
      data := buffer[..n];
    }
  }

  datatype Store = Store(id: uint64, address: seq<byte>, state: int32, unrecognized: seq<byte>)
  {
    /** The state is written as the varint of its 64-bit sign extension. */
    function Bytes(): seq<byte>
    {
      VarintField(0x08, id) + LengthDelimited(0x12, address)
      + VarintField(0x18, Uint64OfInt32(state)) + unrecognized
    }

    method Size() returns (n: nat)
      requires |Bytes()| < TWO_63
      ensures n == |Bytes()|
    {
      var s := SovMetapb(id);
      n := 1 + s;
      var l := |address|;
      s := SovMetapb(l);
      n := n + 1 + l + s;
      s := SovMetapb(Uint64OfInt32(state));
      n := n + 1 + s;
      n := n + |unrecognized|;
    }

    method MarshalTo(data: array<byte>, offset: nat) returns (n: nat)
      requires offset + |Bytes()| <= data.Length < TWO_63
      modifies data
      ensures n == |Bytes()|
      ensures data[..] == Splice(old(data[..]), offset, Bytes())
    {
      ghost var before := data[..];
      var i := WriteVarintField(data, offset, 0x08, id);
      ghost var w := VarintField(0x08, id);
      i := WriteLengthDelimited(data, i, 0x12, address);
      assert data[..] == Splice(before, offset, w + LengthDelimited(0x12, address)) by {
        SpliceTwice(before, offset, w, LengthDelimited(0x12, address));
      }
      w := w + LengthDelimited(0x12, address);
      i := WriteVarintField(data, i, 0x18, Uint64OfInt32(state));
      assert data[..] == Splice(before, offset, w + VarintField(0x18, Uint64OfInt32(state))) by {
        SpliceTwice(before, offset, w, VarintField(0x18, Uint64OfInt32(state)));
      }
      w := w + VarintField(0x18, Uint64OfInt32(state));
      i := CopyInto(data, i, unrecognized);
      assert data[..] == Splice(before, offset, w + unrecognized) by {
        SpliceTwice(before, offset, w, unrecognized);
      }
      w := w + unrecognized;
      assert w == Bytes();
      n := i - offset;
    }

    method Marshal() returns (data: seq<byte>)
      requires |Bytes()| < TWO_63
      ensures data == Bytes()
    {
      var size := Size();
      var buffer := new byte[size];
      ghost var initial := buffer[..];
      var n := MarshalTo(buffer, 0);
      SpliceParts(initial, 0, Bytes());
      data := buffer[..n];
    }
  }

  datatype RegionEpoch = RegionEpoch(confVer: uint64, version: uint64, unrecognized: seq<byte>)
  {
    function Bytes(): seq<byte>
    {
      VarintField(0x08, confVer) + VarintField(0x10, version) + unrecognized
    }

    method Size() returns (n: nat)
      ensures n == |Bytes()|
    {
      var s := SovMetapb(confVer);
      n := 1 + s;
      s := SovMetapb(version);
      n := n + 1 + s;
      n := n + |unrecognized|;
    }

    method MarshalTo(data: array<byte>, offset: nat) returns (n: nat)
      requires offset + |Bytes()| <= data.Length
      modifies data
      ensures n == |Bytes()|
      ensures data[..] == Splice(old(data[..]), offset, Bytes())
    {
      ghost var before := data[..];
      var i := WriteVarintField(data, offset, 0x08, confVer);
      ghost var w := VarintField(0x08, confVer);
      i := WriteVarintField(data, i, 0x10, version);
      assert data[..] == Splice(before, offset, w + VarintField(0x10, version)) by {
        SpliceTwice(before, offset, w, VarintField(0x10, version));
      }
      w := w + VarintField(0x10, version);
      i := CopyInto(data, i, unrecognized);
      assert data[..] == Splice(before, offset, w + unrecognized) by {
        SpliceTwice(before, offset, w, unrecognized);
      }
      w := w + unrecognized;
      assert w == Bytes();
      n := i - offset;
    }

    method Marshal() returns (data: seq<byte>)
      requires |Bytes()| < TWO_63
      ensures data == Bytes()
    {
      var size := Size();
      var buffer := new byte[size];
      ghost var initial := buffer[..];
      var n := MarshalTo(buffer, 0);
      SpliceParts(initial, 0, Bytes());
      data := buffer[..n];
    }
  }

  datatype Peer = Peer(id: uint64, storeId: uint64, unrecognized: seq<byte>)
  {
    function Bytes(): seq<byte>
    {
      VarintField(0x08, id) + VarintField(0x10, storeId) + unrecognized
    }

    method Size() returns (n: nat)
      ensures n == |Bytes()|
    {
      var s := SovMetapb(id);
      n := 1 + s;
      s := SovMetapb(storeId);
      n := n + 1 + s;
      n := n + |unrecognized|;
    }

    method MarshalTo(data: array<byte>, offset: nat) returns (n: nat)
      requires offset + |Bytes()| <= data.Length
      modifies data
      ensures n == |Bytes()|
      ensures data[..] == Splice(old(data[..]), offset, Bytes())
    {
      ghost var before := data[..];
      var i := WriteVarintField(data, offset, 0x08, id);
      ghost var w := VarintField(0x08, id);
      i := WriteVarintField(data, i, 0x10, storeId);
      assert data[..] == Splice(before, offset, w + VarintField(0x10, storeId)) by {
        SpliceTwice(before, offset, w, VarintField(0x10, storeId));
      }
      w := w + VarintField(0x10, storeId);
      i := CopyInto(data, i, unrecognized);
      assert data[..] == Splice(before, offset, w + unrecognized) by {
        SpliceTwice(before, offset, w, unrecognized);
      }
      w := w + unrecognized;
      assert w == Bytes();
      n := i - offset;
    }

    method Marshal() returns (data: seq<byte>)
      requires |Bytes()| < TWO_63
      ensures data == Bytes()
    {
      var size := Size();
      var buffer := new byte[size];
      ghost var initial := buffer[..];
      var n := MarshalTo(buffer, 0);
      SpliceParts(initial, 0, Bytes());
      data := buffer[..n];
    }
  }

  /** The peers of a region, each as its own length-prefixed record under tag 0x2a, in order. */
  function PeersBytes(peers: seq<Peer>): seq<byte>
  {
    if peers == [] then [] else LengthDelimited(0x2a, peers[0].Bytes()) + PeersBytes(peers[1..])
  }

  lemma {:induction false} PeersBytesAppend(peers: seq<Peer>, p: Peer)
    ensures PeersBytes(peers + [p]) == PeersBytes(peers) + LengthDelimited(0x2a, p.Bytes())
  {
    if peers != [] {
      assert (peers + [p])[1..] == peers[1..] + [p];
      PeersBytesAppend(peers[1..], p);
    }
  }

  datatype Region = Region(
    id: uint64,
    startKey: Option<seq<byte>>,
    endKey: Option<seq<byte>>,
    regionEpoch: Option<RegionEpoch>,
    peers: seq<Peer>,
    unrecognized: seq<byte>)
  {
    /** Fields 1 to 4: the id, then the keys and the epoch, each only when present. */
    function HeadBytes(): seq<byte>
    {
      VarintField(0x08, id) + KeysAndEpochBytes()
    }

    /** Fields 2 to 4. */
    function KeysAndEpochBytes(): seq<byte>
    {
      OptionalBytes(0x12, startKey) + OptionalBytes(0x1a, endKey) + EpochField(regionEpoch)
    }

    /** Every peer, in order, then the unknown fields. */
    function TailBytes(): seq<byte>
    {
      PeersBytes(peers) + unrecognized
    }

    function Bytes(): seq<byte>
    {
      HeadBytes() + TailBytes()
    }

    /** The length of the encoding, field by field. */
    lemma Lengths()
      ensures |KeysAndEpochBytes()| == |OptionalBytes(0x12, startKey)| + |OptionalBytes(0x1a, endKey)| + |EpochField(regionEpoch)|
      ensures |Bytes()| == |VarintField(0x08, id)| + |KeysAndEpochBytes()| + |PeersBytes(peers)| + |unrecognized|
      ensures |VarintField(0x08, id)| == 1 + |VarintBytes(id)|
      ensures startKey.Some? ==> |OptionalBytes(0x12, startKey)| == 1 + |VarintBytes(|startKey.value|)| + |startKey.value|
      ensures endKey.Some? ==> |OptionalBytes(0x1a, endKey)| == 1 + |VarintBytes(|endKey.value|)| + |endKey.value|
      ensures regionEpoch.Some? ==>
        |EpochField(regionEpoch)| == 1 + |VarintBytes(|regionEpoch.value.Bytes()|)| + |regionEpoch.value.Bytes()|
    {
    }

    method Size() returns (n: nat)
      requires |Bytes()| < TWO_63
      ensures n == |Bytes()|
    {
      Lengths();
      var s := SovMetapb(id);
      n := 1 + s;
      ghost var counted := |VarintField(0x08, id)|;
      if startKey.Some? {
        var l := |startKey.value|;
        s := SovMetapb(l);
        n := n + 1 + l + s;
      }
      counted := counted + |OptionalBytes(0x12, startKey)|;
      assert n == counted;
      if endKey.Some? {
        var l := |endKey.value|;
        s := SovMetapb(l);
        n := n + 1 + l + s;
      }
      counted := counted + |OptionalBytes(0x1a, endKey)|;
      assert n == counted;
      if regionEpoch.Some? {
        var l := regionEpoch.value.Size();
        s := SovMetapb(l);
        n := n + 1 + l + s;
      }
      counted := counted + |EpochField(regionEpoch)|;
      assert n == counted;
      var p := PeersSize(peers);
      n := n + p;
      n := n + |unrecognized|;
    }

    method MarshalTo(data: array<byte>, offset: nat) returns (n: nat)
      requires offset + |Bytes()| <= data.Length < TWO_63
      modifies data
      ensures n == |Bytes()|
      ensures data[..] == Splice(old(data[..]), offset, Bytes())
    {
      ghost var before := data[..];
      var i := MarshalHeadTo(data, offset);
      i := MarshalTailTo(data, i);
      assert data[..] == Splice(before, offset, HeadBytes() + TailBytes()) by {
        SpliceTwice(before, offset, HeadBytes(), TailBytes());
      }
      n := i - offset;
    }

    /** The first four writes of MarshalTo. */
    method MarshalHeadTo(data: array<byte>, offset: nat) returns (next: nat)
      requires offset + |HeadBytes()| <= data.Length < TWO_63
      modifies data
      ensures next == offset + |HeadBytes()|
      ensures data[..] == Splice(old(data[..]), offset, HeadBytes())
    {
      ghost var before := data[..];
      next := WriteVarintField(data, offset, 0x08, id);
      next := MarshalKeysAndEpochTo(data, next);
      assert data[..] == Splice(before, offset, VarintField(0x08, id) + KeysAndEpochBytes()) by {
        SpliceTwice(before, offset, VarintField(0x08, id), KeysAndEpochBytes());
      }
    }

    /** The nil checks of MarshalTo: StartKey, EndKey and RegionEpoch are written only when set. */
    method MarshalKeysAndEpochTo(data: array<byte>, offset: nat) returns (next: nat)
      requires offset + |KeysAndEpochBytes()| <= data.Length < TWO_63
      modifies data
      ensures next == offset + |KeysAndEpochBytes()|
      ensures data[..] == Splice(old(data[..]), offset, KeysAndEpochBytes())
    {
      ghost var before := data[..];
      ghost var keys := OptionalBytes(0x12, startKey) + OptionalBytes(0x1a, endKey);
      next := MarshalKeysTo(data, offset);
      next := WriteEpochField(data, next, regionEpoch);
      SpliceTwice(before, offset, keys, EpochField(regionEpoch));
    }

    /** StartKey, then EndKey, each only when set. */
    method MarshalKeysTo(data: array<byte>, offset: nat) returns (next: nat)
      requires offset + |OptionalBytes(0x12, startKey) + OptionalBytes(0x1a, endKey)| <= data.Length < TWO_63
      modifies data
      ensures next == offset + |OptionalBytes(0x12, startKey) + OptionalBytes(0x1a, endKey)|
      ensures data[..] == Splice(old(data[..]), offset, OptionalBytes(0x12, startKey) + OptionalBytes(0x1a, endKey))
    {
      ghost var before := data[..];
      next := WriteOptionalBytes(data, offset, 0x12, startKey);
      next := WriteOptionalBytes(data, next, 0x1a, endKey);
      SpliceTwice(before, offset, OptionalBytes(0x12, startKey), OptionalBytes(0x1a, endKey));
    }

    /** The peers loop of MarshalTo, then the unknown fields. */
    method MarshalTailTo(data: array<byte>, offset: nat) returns (next: nat)
      requires offset + |TailBytes()| <= data.Length < TWO_63
      modifies data
      ensures next == offset + |TailBytes()|
      ensures data[..] == Splice(old(data[..]), offset, TailBytes())
    {
      ghost var before := data[..];
      next := WritePeers(data, offset, peers);
      next := CopyInto(data, next, unrecognized);
      assert data[..] == Splice(before, offset, PeersBytes(peers) + unrecognized) by {
        SpliceTwice(before, offset, PeersBytes(peers), unrecognized);
      }
    }

    method Marshal() returns (data: seq<byte>)
      requires |Bytes()| < TWO_63
      ensures data == Bytes()
    {
      var size := Size();
      var buffer := new byte[size];
      ghost var initial := buffer[..];
      var n := MarshalTo(buffer, 0);
      SpliceParts(initial, 0, Bytes());
      data := buffer[..n];
    }
  }

  /** The loop over the peers in Region.Size. */
  method PeersSize(peers: seq<Peer>) returns (n: nat)
    requires |PeersBytes(peers)| < TWO_63
    ensures n == |PeersBytes(peers)|
  {
    n := 0;
    var k := 0;
    while k < |peers|
      invariant k <= |peers| && n == |PeersBytes(peers[..k])|
    {
      var l := peers[k].Size();
      PeersBytesNext(peers, k);
      var s := SovMetapb(l);
      n := n + 1 + l + s;
      k := k + 1;
    }
    assert peers[..k] == peers;
  }

  /** The region_epoch field, when present: tag 0x22, the epoch's Size() as a varint, then its MarshalTo. */
  method WriteEpochField(data: array<byte>, i: nat, epoch: Option<RegionEpoch>) returns (next: nat)
    requires i + |EpochField(epoch)| <= data.Length < TWO_63
    modifies data
    ensures next == i + |EpochField(epoch)|
    ensures data[..] == Splice(old(data[..]), i, EpochField(epoch))
  {
    if epoch.Some? {
      next := WriteEpoch(data, i, epoch.value);
    } else {
      SpliceEmpty(data[..], i);
      next := i;
    }
  }

  /** A set region_epoch: tag 0x22, the epoch's Size() as a varint, then its MarshalTo. */
  method WriteEpoch(data: array<byte>, i: nat, e: RegionEpoch) returns (next: nat)
    requires i + |LengthDelimited(0x22, e.Bytes())| <= data.Length < TWO_63
    modifies data
    ensures next == i + |LengthDelimited(0x22, e.Bytes())|
    ensures data[..] == Splice(old(data[..]), i, LengthDelimited(0x22, e.Bytes()))
  {
    ghost var before := data[..];
    var l := e.Size();
    next := WriteVarintField(data, i, 0x22, l);
    var n1 := e.MarshalTo(data, next);
    assert data[..] == Splice(before, i, VarintField(0x22, l) + e.Bytes()) by {
      SpliceTwice(before, i, VarintField(0x22, l), e.Bytes());
    }
    next := next + n1;
  }

  /** One element of the peers field: tag 0x2a, the peer's Size() as a varint, then its MarshalTo. */
  method WritePeerField(data: array<byte>, i: nat, p: Peer) returns (next: nat)
    requires i + |LengthDelimited(0x2a, p.Bytes())| <= data.Length < TWO_63
    modifies data
    ensures next == i + |LengthDelimited(0x2a, p.Bytes())|
    ensures data[..] == Splice(old(data[..]), i, LengthDelimited(0x2a, p.Bytes()))
  {
    ghost var before := data[..];
    var l := p.Size();
    next := WriteVarintField(data, i, 0x2a, l);
    var n1 := p.MarshalTo(data, next);
    assert data[..] == Splice(before, i, VarintField(0x2a, l) + p.Bytes()) by {
      SpliceTwice(before, i, VarintField(0x2a, l), p.Bytes());
    }
    next := next + n1;
  }

  /** A bytes field of Region, written only when it is not nil. */
  method WriteOptionalBytes(data: array<byte>, i: nat, tag: byte, field: Option<seq<byte>>) returns (next: nat)
    requires i + |OptionalBytes(tag, field)| <= data.Length < TWO_63
    modifies data
    ensures next == i + |OptionalBytes(tag, field)|
    ensures data[..] == Splice(old(data[..]), i, OptionalBytes(tag, field))
  {
    if field.Some? {
      next := WriteLengthDelimited(data, i, tag, field.value);
    } else {
      SpliceEmpty(data[..], i);
      next := i;
    }
  }

  /** The loop over the peers in Region.MarshalTo. */
  method WritePeers(data: array<byte>, i: nat, peers: seq<Peer>) returns (next: nat)
    requires i + |PeersBytes(peers)| <= data.Length < TWO_63
    modifies data
    ensures next == i + |PeersBytes(peers)|
    ensures data[..] == Splice(old(data[..]), i, PeersBytes(peers))
  {
    ghost var before := data[..];
    SpliceEmpty(before, i);
    next := i;
    var k := 0;
    while k < |peers|
      invariant k <= |peers| && |before| == data.Length
      invariant i + |PeersBytes(peers[..k])| <= data.Length
      invariant next == i + |PeersBytes(peers[..k])| && data[..] == Splice(before, i, PeersBytes(peers[..k]))
    {
      next := WriteNextPeer(data, i, peers, k, before, next);
      k := k + 1;
    }
    assert peers[..k] == peers;
  }

  /** One turn of the peers loop: the k-th peer is written right after the first k. */
  method WriteNextPeer(data: array<byte>, i: nat, peers: seq<Peer>, k: nat, ghost before: seq<byte>, at: nat)
    returns (next: nat)
    requires k < |peers| && |before| == data.Length
    requires i + |PeersBytes(peers)| <= data.Length < TWO_63
    requires i + |PeersBytes(peers[..k])| <= data.Length
    requires at == i + |PeersBytes(peers[..k])| && data[..] == Splice(before, i, PeersBytes(peers[..k]))
    modifies data
    ensures i + |PeersBytes(peers[..k + 1])| <= data.Length
    ensures next == i + |PeersBytes(peers[..k + 1])|
    ensures data[..] == Splice(before, i, PeersBytes(peers[..k + 1]))
  {
    ghost var w := PeersBytes(peers[..k]);
    ghost var field := LengthDelimited(0x2a, peers[k].Bytes());
    assert PeersBytes(peers[..k + 1]) == w + field && |w + field| <= |PeersBytes(peers)| by {
      PeersBytesNext(peers, k);
    }
    next := WritePeerField(data, at, peers[k]);
    assert data[..] == Splice(before, i, w + field) by {
      SpliceTwice(before, i, w, field);
    }
  }

  /** The encoding of one more peer extends that of the peers before it, within the whole encoding. */
  lemma PeersBytesNext(peers: seq<Peer>, k: nat)
    requires k < |peers|
    ensures PeersBytes(peers[..k + 1]) == PeersBytes(peers[..k]) + LengthDelimited(0x2a, peers[k].Bytes())
    ensures |PeersBytes(peers[..k + 1])| <= |PeersBytes(peers)|
  {
    var front := peers[..k + 1];
    assert front == peers[..k] + [peers[k]];
    PeersBytesAppend(peers[..k], peers[k]);
    assert |PeersBytes(front)| <= |PeersBytes(peers)| by {
      PeersBytesSplit(peers, k + 1);
    }
  }

  lemma {:induction false} PeersBytesSplit(peers: seq<Peer>, k: nat)
    requires k <= |peers|
    ensures PeersBytes(peers) == PeersBytes(peers[..k]) + PeersBytes(peers[k..])
  {
    if k > 0 {
      PeersBytesSplit(peers[1..], k - 1);
      assert peers[1..][..k - 1] == peers[..k][1..];
      assert peers[1..][k - 1..] == peers[k..];
    }
  }

  /** Writes a one-byte tag and then the varint of v at index i; returns the index after them. */
  method WriteVarintField(data: array<byte>, i: nat, tag: byte, v: uint64) returns (next: nat)
    requires i + |VarintField(tag, v)| <= data.Length
    modifies data
    ensures next == i + |VarintField(tag, v)|
    ensures data[..] == Splice(old(data[..]), i, VarintField(tag, v))
  {
    ghost var before := data[..];
    next := WriteByte(data, i, tag);
    next := EncodeVarintMetapb(data, next, v);
    SpliceTwice(before, i, [tag], VarintBytes(v));
  }

  /** Writes one byte at index i; returns the index after it. */
  method WriteByte(data: array<byte>, i: nat, b: byte) returns (next: nat)
    requires i < data.Length
    modifies data
    ensures next == i + 1 && data[..] == Splice(old(data[..]), i, [b])
  {
    data[i] := b;
    next := i + 1;
  }

  /** i += copy(data[i:], src), where the destination has room for all of src. */
  method CopyInto(data: array<byte>, i: nat, src: seq<byte>) returns (next: nat)
    requires i + |src| <= data.Length
    modifies data
    ensures next == i + |src| && data[..] == Splice(old(data[..]), i, src)
  {
    ghost var before := data[..];
    var k := 0;
    while k < |src|
      invariant k <= |src| && data[..] == Splice(before, i, src[..k])
    {
      SpliceStep(before, i, src[..k], src[k]);
      data[i + k] := src[k];
      assert src[..k + 1] == src[..k] + [src[k]];
      k := k + 1;
    }
    assert src[..k] == src;
    next := i + |src|;
  }

  /** A bytes field: the tag, the varint length, then the bytes copied in. */
  method WriteLengthDelimited(data: array<byte>, i: nat, tag: byte, payload: seq<byte>) returns (next: nat)
    requires i + |LengthDelimited(tag, payload)| <= data.Length < TWO_63
    modifies data
    ensures next == i + |LengthDelimited(tag, payload)|
    ensures data[..] == Splice(old(data[..]), i, LengthDelimited(tag, payload))
  {
    ghost var before := data[..];
    next := WriteVarintField(data, i, tag, |payload|);
    next := CopyInto(data, next, payload);
    assert data[..] == Splice(before, i, VarintField(tag, |payload|) + payload) by {
      SpliceTwice(before, i, VarintField(tag, |payload|), payload);
    }
  }
}
