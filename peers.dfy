/** The compact peer list (main.go:100-103, main.go:142-156): 6-byte entries,
    a 4-byte IPv4 address and a 2-byte big-endian port, as in BEP 23. */
module Peers {
  import opened Base

  type Port = p: int | 0 <= p < 0x1_0000

  datatype Peer = Peer(ip: seq<byte>, port: Port)

  const PeerSize: nat := 6

  datatype PeersError = MalformedPeers

  /** Entry `i` of a compact list: re-encoding its address and port gives
      back the entry's six bytes. */
  function Entry(bin: seq<byte>, i: nat): (r: Peer)
    requires PeerSize * i + PeerSize <= |bin|
    ensures |r.ip| == 4
    ensures r.ip + [r.port / 256, r.port % 256] == bin[PeerSize * i..PeerSize * i + PeerSize]
  {
    var offset := PeerSize * i;
    Peer(bin[offset..offset + 4], Uint16(bin[offset + 4..offset + 6]))
  }

  /** The peers a well-formed compact list decodes to. */
  function Entries(bin: seq<byte>): (r: seq<Peer>)
    requires |bin| % PeerSize == 0
    ensures |r| == |bin| / PeerSize
  {
    seq(|bin| / PeerSize, i requires 0 <= i < |bin| / PeerSize => Entry(bin, i))
  }

  /** `Unmarshal`: rejects a list whose length is not a multiple of 6,
      otherwise fills one peer per entry. */
  method Unmarshal(bin: seq<byte>) returns (r: Result<seq<Peer>, PeersError>)
    ensures r.Failure? <==> |bin| % PeerSize != 0
    ensures r.Success? ==> r.value == Entries(bin)
    ensures r.Success? ==> |r.value| == |bin| / PeerSize
    ensures r.Success? ==>
              forall i :: 0 <= i < |r.value| ==>
                r.value[i].ip == bin[6 * i..6 * i + 4] &&
                r.value[i].port == bin[6 * i + 4] as int * 256 + bin[6 * i + 5] as int
  {
    var numPeers := |bin| / PeerSize;
    if |bin| % PeerSize != 0 {
      return Failure(MalformedPeers);
    }
    var peers := new Peer[numPeers](_ => Peer([], 0));
    for i := 0 to numPeers
      invariant forall k :: 0 <= k < i ==> peers[k] == Entry(bin, k)
    {
      var offset := i * PeerSize;
      peers[i] := Peer(bin[offset..offset + 4], Uint16(bin[offset + 4..offset + 6]));
    }
    assert peers[..] == Entries(bin);
    r := Success(peers[..]);
  }

  /** The tracker side of BEP 23: the compact encoding of a list of IPv4 peers. */
  function Compact(ps: seq<Peer>): (r: seq<byte>)
    requires forall i :: 0 <= i < |ps| ==> |ps[i].ip| == 4
    ensures |r| == PeerSize * |ps|
  {
    if ps == [] then []
    else ps[0].ip + [ps[0].port / 256, ps[0].port % 256] + Compact(ps[1..])
  }

  lemma SliceShift<T>(xs: seq<T>, k: nat, a: nat, b: nat)
    requires k <= |xs| && a <= b <= |xs| - k
    ensures xs[k..][a..b] == xs[k + a..k + b]
  {
  }

  lemma EntriesCons(bin: seq<byte>)
    requires |bin| % PeerSize == 0 && |bin| > 0
    ensures Entries(bin) == [Entry(bin, 0)] + Entries(bin[PeerSize..])
  {
    var tail := bin[PeerSize..];
    forall i | 0 <= i < |tail| / PeerSize
      ensures Entry(bin, i + 1) == Entry(tail, i)
    {
      var o := PeerSize * i;
      assert PeerSize * (i + 1) == PeerSize + o;
      assert o + PeerSize <= |tail| by {
        assert i + 1 <= |tail| / PeerSize;
        assert PeerSize * (i + 1) <= PeerSize * (|tail| / PeerSize);
      }
      SliceShift(bin, PeerSize, o, o + 4);
      SliceShift(bin, PeerSize, o + 4, o + 6);
    }
  }

  /** Decoding the compact encoding of a list gives the list back. */
  lemma {:induction false} EntriesOfCompact(ps: seq<Peer>)
    requires forall i :: 0 <= i < |ps| ==> |ps[i].ip| == 4
    ensures Entries(Compact(ps)) == ps
  {
    if ps != [] {
      var bin := Compact(ps);
      EntriesCons(bin);
      assert bin[PeerSize..] == Compact(ps[1..]);
      EntriesOfCompact(ps[1..]);
      assert bin[..6] == ps[0].ip + [ps[0].port / 256, ps[0].port % 256];
      assert Uint16(bin[4..6]) == ps[0].port;
      assert Entry(bin, 0) == ps[0];
    }
  }

  /** Every well-formed list is the encoding of what it decodes to, so
      `Unmarshal` loses no byte of its input. */
  lemma {:induction false} CompactOfEntries(bin: seq<byte>)
    requires |bin| % PeerSize == 0
    ensures var ps := Entries(bin);
            (forall i :: 0 <= i < |ps| ==> |ps[i].ip| == 4) && Compact(ps) == bin
  {
    if bin != [] {
      EntriesCons(bin);
      CompactOfEntries(bin[PeerSize..]);
      var p := Entry(bin, 0);
      assert [p.port / 256, p.port % 256] == bin[4..6];
      assert bin == bin[..4] + bin[4..6] + bin[PeerSize..];
    }
  }

  /** Two entries for port 6881 (`0x1AE1`). */
  lemma TwoPeers()
    ensures Entries([1, 2, 3, 4, 0x1A, 0xE1, 5, 6, 7, 8, 0x1A, 0xE1])
            == [Peer([1, 2, 3, 4], 6881), Peer([5, 6, 7, 8], 6881)]
  {
    var bin: seq<byte> := [1, 2, 3, 4, 0x1A, 0xE1, 5, 6, 7, 8, 0x1A, 0xE1];
    assert Entry(bin, 0) == Peer([1, 2, 3, 4], 6881);
    assert bin[6..10] == [5, 6, 7, 8];
    assert Entry(bin, 1) == Peer([5, 6, 7, 8], 6881);
  }
}
