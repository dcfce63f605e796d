/** Peer-wire message framing (main.go:60-77, main.go:169-206): a 4-byte
    big-endian length, then that many bytes, the first of which is the
    message id. A length of zero is a keep-alive and carries no message. */
module Message {
  import opened Base

  const MsgChoke: byte := 0
  const MsgUnchoke: byte := 1
  const MsgInterested: byte := 2
  const MsgNotInterested: byte := 3
  const MsgHave: byte := 4
  const MsgBitfield: byte := 5
  const MsgRequest: byte := 6
  const MsgPiece: byte := 7
  const MsgCancel: byte := 8

  datatype Message = Message(id: byte, payload: seq<byte>)

  /** The largest payload `Serialize` frames correctly: beyond it the Go code's
      `uint32` arithmetic on `4 + length` wraps around. */
  const MaxPayload: nat := TwoTo32 - 6

  /** The bytes a message occupies on the wire; `None` is the nil message,
      which goes out as a keep-alive. */
  function Frame(m: Option<Message>): (r: seq<byte>)
    requires m.Some? ==> |m.value.payload| + 1 < TwoTo32
    ensures |r| == if m.None? then 4 else |m.value.payload| + 5
  {
    match m
    case None => [0, 0, 0, 0]
    case Some(msg) => BE32(|msg.payload| + 1) + [msg.id] + msg.payload
  }

  /** `(*Message).Serialize`: allocates the frame and fills it in order. */
  method Serialize(m: Option<Message>) returns (out: seq<byte>)
    requires m.Some? ==> |m.value.payload| <= MaxPayload
    ensures out == Frame(m)
  {
    if m.None? {
      var buf := new byte[4](_ => 0);
      return buf[..];
    }
    var msg := m.value;
    var length := |msg.payload| + 1;
    var buf := new byte[4 + length](_ => 0);
    PutUint32(buf, length);
    buf[4] := msg.id;
    var _ := CopyInto(buf, 5, msg.payload);
    out := buf[..];
  }

  /** What `io.ReadFull` reports: `EOF` when it read nothing, `UnexpectedEOF`
      when the stream ended part-way through. */
  datatype ReadError = EOF | UnexpectedEOF

  /** A decoded frame and the number of bytes it took from the stream. */
  datatype Decoded = Decoded(msg: Option<Message>, consumed: nat)

  function ShortRead(available: nat): ReadError
  {
    if available == 0 then EOF else UnexpectedEOF
  }

  /** `Read`, over the bytes the reader would deliver: first the length
      prefix, then exactly `length` bytes. */
  function Read(s: seq<byte>): (r: Result<Decoded, ReadError>)
    ensures r.Success? ==> 4 <= r.value.consumed <= |s|
  {
    if |s| < 4 then Failure(ShortRead(|s|))
    else
      var length := Uint32(s[..4]);
      if length == 0 then Success(Decoded(None, 4))
      else if |s| - 4 < length then Failure(ShortRead(|s| - 4))
      else Success(Decoded(Some(Message(s[4], s[5..4 + length])), 4 + length))
  }

  /** A message frame: big-endian prefix `len(payload) + 1`, the id at index 4,
      then the payload verbatim; the nil message is four zero bytes. */
  lemma FrameLayout(m: Option<Message>)
    requires m.Some? ==> |m.value.payload| + 1 < TwoTo32
    ensures m.None? ==> Frame(m) == [0, 0, 0, 0]
    ensures m.Some? ==> |Frame(m)| == 4 + |m.value.payload| + 1
    ensures m.Some? ==> Uint32(Frame(m)[..4]) == |m.value.payload| + 1
    ensures m.Some? ==> Frame(m)[4] == m.value.id && Frame(m)[5..] == m.value.payload
  {
    if m.Some? {
      var f := Frame(m);
      assert f[..4] == BE32(|m.value.payload| + 1);
    }
  }

  /** Round trip: reading a serialized message gives it back, consuming exactly
      its frame whatever follows it; this covers the keep-alive. */
  lemma ReadFrame(m: Option<Message>, rest: seq<byte>)
    requires m.Some? ==> |m.value.payload| + 1 < TwoTo32
    ensures Read(Frame(m) + rest) == Success(Decoded(m, |Frame(m)|))
  {
    var s := Frame(m) + rest;
    FrameLayout(m);
    assert s[..4] == Frame(m)[..4];
    if m.Some? {
      var n := |m.value.payload| + 1;
      assert s[5..4 + n] == Frame(m)[5..];
    }
  }

  /** The converse: whatever `Read` accepts begins with the frame of the
      message it returns, so decoding loses nothing. */
  lemma ReadIsFramed(s: seq<byte>)
    requires Read(s).Success?
    ensures var d := Read(s).value;
            (d.msg.Some? ==> |d.msg.value.payload| + 1 < TwoTo32) &&
            s[..d.consumed] == Frame(d.msg)
  {
    var d := Read(s).value;
    BE32OfUint32(s[..4]);
    if d.msg.Some? {
      var n := Uint32(s[..4]);
      assert s[..d.consumed] == s[..4] + [s[4]] + s[5..4 + n];
    } else {
      assert s[..4] == BE32(0);
    }
  }

  /** Input that stops before the end of a frame is an error, not a message:
      `EOF` if it stops at a field boundary, `UnexpectedEOF` inside one. */
  lemma ReadShort(m: Option<Message>, k: nat)
    requires m.Some? ==> |m.value.payload| + 1 < TwoTo32
    requires k < |Frame(m)|
    ensures Read(Frame(m)[..k]).Failure?
    ensures Read(Frame(m)[..k]).error == (if k == 0 || k == 4 then EOF else UnexpectedEOF)
  {
    var s := Frame(m)[..k];
    FrameLayout(m);
    if k >= 4 {
      assert s[..4] == Frame(m)[..4];
    }
  }
}
