/** Bytes, big-endian integers and the failure-carrying datatypes shared by the
    peer-wire modules. */
module Base {

  /** A Go `byte`. Arithmetic on bytes is done on their integer values. */
  type byte = b: int | 0 <= b < 256

  const TwoTo32: int := 0x1_0000_0000

  datatype Option<+T> = None | Some(value: T)

  datatype Result<+T, +E> = Success(value: T) | Failure(error: E)

  function Min(a: int, b: int): int { if a < b then a else b }

  function Zeros(n: nat): (r: seq<byte>)
    ensures |r| == n && forall k :: 0 <= k < n ==> r[k] == 0
  {
    seq(n, _ => 0)
  }

  /** A SHA-1 digest or a peer id: exactly 20 bytes. */
  type Digest = s: seq<byte> | |s| == 20 witness Zeros(20)

  /** `binary.BigEndian.PutUint32`: the four bytes of `n`, most significant
      first; reading them back with `Uint32` gives `n`. */
  function BE32(n: nat): (r: seq<byte>)
    requires n < TwoTo32
    ensures |r| == 4 && Uint32(r) == n
  {
    SplitDigits(n);
    [n / 0x100_0000, (n / 0x1_0000) % 256, (n / 256) % 256, n % 256]
  }

  /** `binary.BigEndian.Uint32`: the value of four bytes read most significant first. */
  function Uint32(s: seq<byte>): (n: nat)
    requires |s| == 4
    ensures n < TwoTo32
  {
    s[0] as int * 0x100_0000 + s[1] as int * 0x1_0000 + s[2] as int * 256 + s[3] as int
  }

  /** `binary.BigEndian.Uint16`: the value of two bytes read most significant
      first, whose base-256 digits are those two bytes again. */
  function Uint16(s: seq<byte>): (n: nat)
    requires |s| == 2
    ensures n < 0x1_0000
    ensures n / 256 == s[0] && n % 256 == s[1]
  {
    s[0] as int * 256 + s[1] as int
  }

  /** Four base-256 digits determine the number they spell, and back. */
  lemma Digits(n: nat, a: nat, b: byte, c: byte, d: byte)
    requires n == a * 0x100_0000 + b * 0x1_0000 + c * 256 + d
    ensures n / 256 == a * 0x1_0000 + b * 256 + c && n % 256 == d
    ensures n / 0x1_0000 == a * 256 + b && (n / 256) % 256 == c
    ensures n / 0x100_0000 == a && (n / 0x1_0000) % 256 == b
  {
    var q1 := a * 0x1_0000 + b * 256 + c;
    assert n == q1 * 256 + d;
    var q2 := a * 256 + b;
    assert q1 == q2 * 256 + c;
    assert n == q2 * 0x1_0000 + (c * 256 + d);
    assert n == a * 0x100_0000 + (b * 0x1_0000 + c * 256 + d);
  }

  /** `n` is spelled by its four base-256 digits. */
  lemma SplitDigits(n: nat)
    requires n < TwoTo32
    ensures n == (n / 0x100_0000) * 0x100_0000 + ((n / 0x1_0000) % 256) * 0x1_0000
                 + ((n / 256) % 256) * 256 + n % 256
  {
    var d := n % 256;
    var q1 := n / 256;
    var c := q1 % 256;
    var q2 := q1 / 256;
    var b := q2 % 256;
    var a := q2 / 256;
    assert q1 == q2 * 256 + c;
    assert n == a * 0x100_0000 + b * 0x1_0000 + c * 256 + d;
    Digits(n, a, b, c, d);
  }

  lemma BE32OfUint32(s: seq<byte>)
    requires |s| == 4
    ensures BE32(Uint32(s)) == s
  {
    Digits(Uint32(s), s[0], s[1], s[2], s[3]);
  }

  /** Go's built-in `copy(dst[at:], src)`: copies as many bytes as fit and
      returns how many it copied. */
  method CopyInto(dst: array<byte>, at: nat, src: seq<byte>) returns (n: nat)
    requires at <= dst.Length
    modifies dst
    ensures n == Min(|src|, dst.Length - at)
    ensures dst[..] == old(dst[..at]) + src[..n] + old(dst[at + n..])
  {
    n := Min(|src|, dst.Length - at);
    var k := 0;
    while k < n
      invariant 0 <= k <= n
      invariant forall j :: 0 <= j < at ==> dst[j] == old(dst[j])
      invariant forall j :: 0 <= j < k ==> dst[at + j] == src[j]
      invariant forall j :: at + k <= j < dst.Length ==> dst[j] == old(dst[j])
    {
      dst[at + k] := src[k];
      k := k + 1;
    }
    assert dst[..] == old(dst[..at]) + src[..n] + old(dst[at + n..]);
  }

  /** `binary.BigEndian.PutUint32(dst[0:4], n)`. */
  method PutUint32(dst: array<byte>, n: nat)
    requires 4 <= dst.Length && n < TwoTo32
    modifies dst
    ensures dst[..] == BE32(n) + old(dst[4..])
  {
    dst[0] := n / 0x100_0000;
    dst[1] := (n / 0x1_0000) % 256;
    dst[2] := (n / 256) % 256;
    dst[3] := n % 256;
    assert dst[..] == BE32(n) + old(dst[4..]);
  }
}
