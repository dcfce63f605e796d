/** The opening handshake (main.go:105-109, main.go:158-167): protocol-string
    length, protocol string, eight reserved bytes, info-hash, peer id. */
module Handshake {
  import opened Base

  datatype Handshake = Handshake(pstr: seq<byte>, infoHash: Digest, peerId: Digest)

  /** The handshake's wire image. `byte(len(h.Pstr))` keeps only the low eight
      bits of the length. */
  function Layout(h: Handshake): (r: seq<byte>)
    ensures |r| == |h.pstr| + 49
  {
    [|h.pstr| % 256] + h.pstr + Zeros(8) + h.infoHash + h.peerId
  }

  /** `(*Handshake).Serialize`: a buffer of `len(Pstr) + 49` bytes filled
      through a moving cursor. */
  method Serialize(h: Handshake) returns (out: seq<byte>)
    ensures out == Layout(h)
  {
    var p := |h.pstr|;
    var buf := new byte[p + 49](_ => 0);
    assert buf[..] == Zeros(p + 49);
    buf[0] := p % 256;
    assert buf[..] == [p % 256] + Zeros(p + 48);
    var curr := 1;
    curr := Append(buf, curr, [p % 256], h.pstr, 48);
    curr := Append(buf, curr, [p % 256] + h.pstr, Zeros(8), 40);
    curr := Append(buf, curr, [p % 256] + h.pstr + Zeros(8), h.infoHash, 20);
    curr := Append(buf, curr, [p % 256] + h.pstr + Zeros(8) + h.infoHash, h.peerId, 0);
    assert Zeros(0) == [];
    out := buf[..];
  }

  /** One `curr += copy(buf[curr:], src)` on a buffer whose first `curr` bytes
      are `done` and whose remaining bytes are still zero. */
  method Append(buf: array<byte>, curr: nat, ghost done: seq<byte>, src: seq<byte>, ghost rest: nat)
    returns (next: nat)
    requires curr == |done| && buf[..] == done + Zeros(|src| + rest)
    modifies buf
    ensures next == curr + |src|
    ensures buf[..] == done + src + Zeros(rest)
  {
    Fill(done, src, rest);
    var n := CopyInto(buf, curr, src);
    next := curr + n;
  }

  /** Copying `src` right after an already written `prefix` of a zeroed buffer
      extends the prefix by `src`, leaving zeros behind it. */
  lemma Fill(prefix: seq<byte>, src: seq<byte>, rest: nat)
    ensures var before := prefix + Zeros(|src| + rest);
            |before| - |prefix| >= |src| &&
            before[..|prefix|] + src + before[|prefix| + |src|..] == prefix + src + Zeros(rest)
  {
    var before := prefix + Zeros(|src| + rest);
    assert before[..|prefix|] == prefix;
    assert before[|prefix| + |src|..] == Zeros(rest);
  }

  /** Each field sits at its fixed offset: the length byte at 0, the protocol
      string from 1, zeros up to `1 + len + 8`, the info-hash there, and the
      peer id in the last 20 bytes. */
  lemma LayoutOffsets(h: Handshake)
    ensures var b := Layout(h); var p := |h.pstr|;
            && |b| == p + 49
            && b[0] == p % 256
            && b[1..1 + p] == h.pstr
            && (forall k :: 1 + p <= k < 1 + p + 8 ==> b[k] == 0)
            && b[1 + p + 8..1 + p + 28] == h.infoHash
            && b[|b| - 20..] == h.peerId
  {
    var b := Layout(h);
    var p := |h.pstr|;
    assert b == [p % 256] + h.pstr + Zeros(8) + h.infoHash + h.peerId;
    assert b[1..1 + p] == h.pstr;
    assert b[1 + p + 8..1 + p + 28] == h.infoHash;
    assert b[|b| - 20..] == h.peerId;
  }

  /** The fields of a handshake image, read by the offsets the length byte
      implies (the inverse of `Layout`, used to show the image is unambiguous). */
  function Fields(b: seq<byte>): Option<Handshake>
  {
    if |b| == 0 || |b| != b[0] as int + 49 then None
    else
      var p := b[0] as int;
      Some(Handshake(b[1..1 + p], b[1 + p + 8..1 + p + 28], b[1 + p + 28..]))
  }

  /** A handshake whose protocol string fits the length byte can be read back
      from its image; a longer one cannot, because its length byte wrapped. */
  lemma FieldsOfLayout(h: Handshake)
    ensures Fields(Layout(h)) == (if |h.pstr| < 256 then Some(h) else None)
  {
    LayoutOffsets(h);
    var b := Layout(h);
    if |h.pstr| < 256 {
      assert b[1 + |h.pstr| + 28..] == h.peerId;
    }
  }
}
