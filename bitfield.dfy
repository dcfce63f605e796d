/** The peer's piece bit vector (main.go:208-224): one bit per piece, byte
    `index / 8`, most significant bit first. Only bit operations touch these
    bytes, so they are `bv8` values. */
module Bitfield {

  /** Bit `7 - offset` of `x`, as `x >> (7 - offset) & 1 != 0` reads it. */
  function HasBit(x: bv8, offset: nat): bool
    requires offset < 8
  {
    (x >> (7 - offset)) & 1 != 0
  }

  /** `x | 1 << (7 - offset)`. */
  function SetBit(x: bv8, offset: nat): bv8
    requires offset < 8
  {
    x | (1 << (7 - offset))
  }

  lemma SetBitHas(x: bv8, i: nat, j: nat)
    requires i < 8 && j < 8
    ensures HasBit(SetBit(x, i), j) == (i == j || HasBit(x, j))
  {
    var a, b := (7 - i) as bv8, (7 - j) as bv8;
    assert HasBit(SetBit(x, i), j) == (((x | (1 << a)) >> b) & 1 != 0);
    assert HasBit(x, j) == ((x >> b) & 1 != 0);
    assert (i == j) == (a == b);
    OrShift(x, a, b);
  }

  /** `SetBitHas` with the shift amounts as bit-vectors. */
  lemma OrShift(x: bv8, a: bv8, b: bv8)
    requires a < 8 && b < 8
    ensures (((x | (1 << a)) >> b) & 1 != 0) == (a == b || (x >> b) & 1 != 0)
  {
  }

  lemma SetBitIdempotent(x: bv8, i: nat)
    requires i < 8
    ensures SetBit(SetBit(x, i), i) == SetBit(x, i)
    ensures HasBit(x, i) ==> SetBit(x, i) == x
  {
  }

  /** `Bitfield.HasPiece`. The Go code indexes the slice without a bounds
      check, so a piece beyond the vector panics; the model requires it. */
  function HasPiece(bf: seq<bv8>, index: nat): (r: bool)
    requires index / 8 < |bf|
    ensures r == (bf[index / 8] & Mask(index % 8) != 0)
  {
    MaskSelects(bf[index / 8], index % 8);
    HasBit(bf[index / 8], index % 8)
  }

  /** The value of the vector after `SetPiece(index)`: byte `index / 8` gains
      the piece's mask bit and every other byte is as it was. */
  function WithPiece(bf: seq<bv8>, index: nat): (r: seq<bv8>)
    requires index / 8 < |bf|
    ensures |r| == |bf|
    ensures forall k :: 0 <= k < |bf| && k != index / 8 ==> r[k] == bf[k]
    ensures r[index / 8] == bf[index / 8] | Mask(index % 8)
  {
    MaskSelects(bf[index / 8], index % 8);
    bf[index / 8 := SetBit(bf[index / 8], index % 8)]
  }

  /** The bit of the piece at `offset` within its byte, counted from the most
      significant end: `0x80` for offset 0, `0x01` for offset 7. */
  function Mask(offset: nat): bv8
    requires offset < 8
  {
    [0x80, 0x40, 0x20, 0x10, 0x08, 0x04, 0x02, 0x01][offset]
  }

  /** The shift expressions of the Go code select and set exactly the mask bit. */
  lemma MaskSelects(x: bv8, offset: nat)
    requires offset < 8
    ensures HasBit(x, offset) == (x & Mask(offset) != 0)
    ensures SetBit(x, offset) == x | Mask(offset)
  {
    MaskTests(x, offset);
    MaskSets(x, offset);
  }

  /** Testing bit `7 - offset` by shifting is testing the mask. */
  lemma MaskTests(x: bv8, offset: nat)
    requires offset < 8
    ensures HasBit(x, offset) == (x & Mask(offset) != 0)
  {
    if offset == 0 {
    } else if offset == 1 {
    } else if offset == 2 {
    } else if offset == 3 {
    } else if offset == 4 {
    } else if offset == 5 {
    } else if offset == 6 {
    } else {
    }
  }

  /** Setting bit `7 - offset` by shifting is ORing in the mask. */
  lemma MaskSets(x: bv8, offset: nat)
    requires offset < 8
    ensures SetBit(x, offset) == x | Mask(offset)
  {
    if offset == 0 {
    } else if offset == 1 {
    } else if offset == 2 {
    } else if offset == 3 {
    } else if offset == 4 {
    } else if offset == 5 {
    } else if offset == 6 {
    } else {
    }
  }

  /** `Bitfield.SetPiece`: ORs the piece's bit into its byte, in place. */
  method SetPiece(bf: array<bv8>, index: nat)
    requires index / 8 < bf.Length
    modifies bf
    ensures bf[..] == WithPiece(old(bf[..]), index)
  {
    var byteIndex := index / 8;
    var offset := index % 8;
    bf[byteIndex] := bf[byteIndex] | (1 << (7 - offset));
  }

  /** After `SetPiece(i)` exactly piece `i` is added: `HasPiece(i)` holds and
      every other piece reads as it did before. */
  lemma SetThenHas(bf: seq<bv8>, i: nat, j: nat)
    requires i / 8 < |bf| && j / 8 < |bf|
    ensures |WithPiece(bf, i)| == |bf|
    ensures HasPiece(WithPiece(bf, i), j) == (j == i || HasPiece(bf, j))
  {
    SamePiece(i, j);
    if i / 8 == j / 8 {
      SetBitHas(bf[i / 8], i % 8, j % 8);
    }
  }

  /** Two pieces are equal exactly when their byte and bit positions are. */
  lemma SamePiece(i: nat, j: nat)
    ensures (i == j) == (i / 8 == j / 8 && i % 8 == j % 8)
  {
    assert i == 8 * (i / 8) + i % 8;
    assert j == 8 * (j / 8) + j % 8;
  }

  /** Setting a piece twice is the same as setting it once. */
  lemma SetIdempotent(bf: seq<bv8>, i: nat)
    requires i / 8 < |bf|
    ensures WithPiece(WithPiece(bf, i), i) == WithPiece(bf, i)
  {
    SetBitIdempotent(bf[i / 8], i % 8);
  }

  /** Setting a piece the vector already has changes nothing. */
  lemma SetPresentUnchanged(bf: seq<bv8>, i: nat)
    requires i / 8 < |bf| && HasPiece(bf, i)
    ensures WithPiece(bf, i) == bf
  {
    SetBitIdempotent(bf[i / 8], i % 8);
  }

  /** Indexing is most-significant-bit first: piece 0 is `0x80` of byte 0,
      piece 7 is `0x01`, piece 8 starts byte 1. */
  lemma MsbFirst()
    ensures HasPiece([0x80], 0) && !HasPiece([0x80], 7)
    ensures HasPiece([0x01], 7) && !HasPiece([0x01], 0)
    ensures HasPiece([0, 0x80], 8) && !HasPiece([0x80, 0], 8)
    ensures WithPiece([0, 0], 9) == [0, 0x40]
  {
  }

  // The bounds-checked forms (see the findings in README.md): a piece beyond
  // the vector reads as absent, and setting it is ignored.

  function HasPieceBounded(bf: seq<bv8>, index: nat): (r: bool)
    ensures r ==> index / 8 < |bf|
  {
    index / 8 < |bf| && HasPiece(bf, index)
  }

  function WithPieceBounded(bf: seq<bv8>, index: nat): (r: seq<bv8>)
    ensures |r| == |bf|
  {
    if index / 8 < |bf| then WithPiece(bf, index) else bf
  }

  method SetPieceBounded(bf: array<bv8>, index: nat)
    modifies bf
    ensures bf[..] == WithPieceBounded(old(bf[..]), index)
  {
    if index / 8 < bf.Length {
      SetPiece(bf, index);
    }
  }

  /** The bounded forms: setting a piece inside the vector makes it present,
      setting one outside changes nothing, and no piece is ever lost. */
  lemma BoundedSetThenHas(bf: seq<bv8>, i: nat, j: nat)
    ensures HasPieceBounded(WithPieceBounded(bf, i), j)
            == ((j == i && i / 8 < |bf|) || HasPieceBounded(bf, j))
  {
    if i / 8 < |bf| && j / 8 < |bf| {
      SetThenHas(bf, i, j);
    }
  }
}
