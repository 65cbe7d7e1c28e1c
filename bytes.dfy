/**
 * Byte buffers addressed bit by bit, MSB first within each byte: bit i of a
 * buffer is bit (7 - i % 8) of byte i / 8. This is the order of READ_BIT and
 * WRITE_BIT in the encoder and of every frame loop of the codec.
 */
module Bytes {
  import opened Bits

  /** `1 << p` for a bit position p < 8 of a byte. */
  const Masks: seq<bv8> := [1, 2, 4, 8, 16, 32, 64, 128]

  /** `(x >> p) & 1` on a byte. */
  function ByteBit(x: bv8, p: nat): (r: nat)
    requires p < 8
    ensures r <= 1
  {
    if x & Masks[p] == 0 then 0 else 1
  }

  /** READ_BIT(p, i): bit i of the buffer, counted MSB first. */
  function ReadBit(p: seq<bv8>, i: nat): (r: nat)
    requires i < 8 * |p|
    ensures r <= 1
  {
    ByteBit(p[i / 8], 7 - i % 8)
  }

  /** The buffer as a sequence of 8 * |p| bits, in transmission order. */
  function BytesToBits(p: seq<bv8>): (r: seq<nat>)
    ensures |r| == 8 * |p|
  {
    seq(8 * |p|, i requires 0 <= i < 8 * |p| => ReadBit(p, i))
  }

  /** A bit value as C tests it: any nonzero value is a one. */
  function Norm(v: nat): (r: nat)
    ensures r <= 1 && (r == 1 <==> v != 0)
  {
    if v != 0 then 1 else 0
  }

  /** Every entry of a bit array tested for nonzero. */
  function NormAll(s: seq<nat>): (r: seq<nat>)
    ensures |r| == |s|
    ensures forall i :: 0 <= i < |s| ==> r[i] == Norm(s[i])
  {
    seq(|s|, i requires 0 <= i < |s| => Norm(s[i]))
  }

  // ---------------------------------------------------------------------
  // One byte
  // ---------------------------------------------------------------------

  lemma ByteBitZero(q: nat)
    requires q < 8
    ensures ByteBit(0, q) == 0
  {
  }

  /** `x | (1 << p)` sets bit p and keeps the other bits. */
  lemma ByteBitSet(x: bv8, p: nat, q: nat)
    requires p < 8 && q < 8
    ensures ByteBit(x | Masks[p], q) == if p == q then 1 else ByteBit(x, q)
  {
  }

  /** `x & ~(1 << p)` clears bit p and keeps the other bits. */
  lemma ByteBitClear(x: bv8, p: nat, q: nat)
    requires p < 8 && q < 8
    ensures ByteBit(x & !Masks[p], q) == if p == q then 0 else ByteBit(x, q)
  {
  }

  /** `x ^ (1 << p)` inverts bit p and keeps the other bits. */
  lemma ByteBitFlip(x: bv8, p: nat, q: nat)
    requires p < 8 && q < 8
    ensures ByteBit(x ^ Masks[p], q) == if p == q then 1 - ByteBit(x, q) else ByteBit(x, q)
  {
    var m := Masks[p];
    if p == q {
      assert (x ^ m) & m == m & !x;
    } else {
      assert (x ^ m) & Masks[q] == x & Masks[q];
    }
  }

  /** A byte is determined by its eight bits. */
  lemma ByteExt(x: bv8, y: bv8)
    requires forall q :: 0 <= q < 8 ==> ByteBit(x, q) == ByteBit(y, q)
    ensures x == y
  {
    assert ByteBit(x, 0) == ByteBit(y, 0) && ByteBit(x, 1) == ByteBit(y, 1);
    assert ByteBit(x, 2) == ByteBit(y, 2) && ByteBit(x, 3) == ByteBit(y, 3);
    assert ByteBit(x, 4) == ByteBit(y, 4) && ByteBit(x, 5) == ByteBit(y, 5);
    assert ByteBit(x, 6) == ByteBit(y, 6) && ByteBit(x, 7) == ByteBit(y, 7);
  }

  // ---------------------------------------------------------------------
  // Whole buffers
  // ---------------------------------------------------------------------

  lemma BytesToBitsAreBits(p: seq<bv8>)
    ensures IsBits(BytesToBits(p))
  {
  }

  /** A cleared buffer (`memset(p, 0, n)`) reads as all zeros. */
  lemma BytesToBitsZero(n: nat)
    ensures BytesToBits(seq(n, k => 0 as bv8)) == Zeros(8 * n)
  {
    var p := seq(n, k => 0 as bv8);
    forall i | 0 <= i < 8 * n
      ensures BytesToBits(p)[i] == 0
    {
      ByteBitZero(7 - i % 8);
    }
  }

  /** Two buffers of one length that read alike bit by bit are equal. */
  lemma BytesToBitsInjective(p: seq<bv8>, q: seq<bv8>)
    requires |p| == |q| && BytesToBits(p) == BytesToBits(q)
    ensures p == q
  {
    forall k | 0 <= k < |p|
      ensures p[k] == q[k]
    {
      forall b | 0 <= b < 8
        ensures ByteBit(p[k], b) == ByteBit(q[k], b)
      {
        var i := 8 * k + (7 - b);
        assert i / 8 == k && 7 - i % 8 == b;
        assert BytesToBits(p)[i] == BytesToBits(q)[i];
      }
      ByteExt(p[k], q[k]);
    }
  }

  /** Replacing byte k changes only the bits 8k .. 8k + 7. */
  lemma ReadBitOfUpdate(p: seq<bv8>, k: nat, x: bv8, j: nat)
    requires k < |p| && j < 8 * |p|
    ensures ReadBit(p[k := x], j) == if j / 8 == k then ByteBit(x, 7 - j % 8) else ReadBit(p, j)
  {
  }

  /** Two positions in one byte are equal iff their bit offsets are. */
  lemma SameByte(i: nat, j: nat)
    requires i / 8 == j / 8
    ensures (i == j) == (7 - i % 8 == 7 - j % 8)
  {
  }

  lemma SetBitAt(p: seq<bv8>, i: nat, j: nat)
    requires i < 8 * |p| && j < 8 * |p|
    ensures ReadBit(p[i / 8 := p[i / 8] | Masks[7 - i % 8]], j) == if j == i then 1 else ReadBit(p, j)
  {
    ReadBitOfUpdate(p, i / 8, p[i / 8] | Masks[7 - i % 8], j);
    if j / 8 == i / 8 {
      SameByte(i, j);
      ByteBitSet(p[i / 8], 7 - i % 8, 7 - j % 8);
    }
  }

  lemma ClearBitAt(p: seq<bv8>, i: nat, j: nat)
    requires i < 8 * |p| && j < 8 * |p|
    ensures ReadBit(p[i / 8 := p[i / 8] & !Masks[7 - i % 8]], j) == if j == i then 0 else ReadBit(p, j)
  {
    ReadBitOfUpdate(p, i / 8, p[i / 8] & !Masks[7 - i % 8], j);
    if j / 8 == i / 8 {
      SameByte(i, j);
      ByteBitClear(p[i / 8], 7 - i % 8, 7 - j % 8);
    }
  }

  lemma FlipBitAt(p: seq<bv8>, i: nat, j: nat)
    requires i < 8 * |p| && j < 8 * |p|
    ensures ReadBit(p[i / 8 := p[i / 8] ^ Masks[7 - i % 8]], j) == if j == i then 1 - ReadBit(p, i) else ReadBit(p, j)
  {
    if j == i {
      FlipBitSelf(p, i);
    } else {
      FlipBitOther(p, i, j);
    }
  }

  lemma FlipBitSelf(p: seq<bv8>, i: nat)
    requires i < 8 * |p|
    ensures ReadBit(p[i / 8 := p[i / 8] ^ Masks[7 - i % 8]], i) == 1 - ReadBit(p, i)
  {
    var k, q := i / 8, 7 - i % 8;
    var x := p[k] ^ Masks[q];
    ReadBitOfUpdate(p, k, x, i);
    ByteBitFlip(p[k], q, q);
  }

  lemma FlipBitOther(p: seq<bv8>, i: nat, j: nat)
    requires i < 8 * |p| && j < 8 * |p| && j != i
    ensures ReadBit(p[i / 8 := p[i / 8] ^ Masks[7 - i % 8]], j) == ReadBit(p, j)
  {
    FlipOtherAt(p, i / 8, 7 - i % 8, j / 8, 7 - j % 8);
  }

  lemma FlipOtherAt(p: seq<bv8>, k: nat, q: nat, kj: nat, qj: nat)
    requires k < |p| && q < 8 && kj < |p| && qj < 8 && (k != kj || q != qj)
    ensures ByteBit(p[k := p[k] ^ Masks[q]][kj], qj) == ByteBit(p[kj], qj)
  {
    if k == kj {
      ByteBitFlip(p[k], q, qj);
    }
  }

  /** `p[i >> 3] |= 1 << (7 - (i & 7))` sets bit i and no other. */
  lemma SetBitOfBuffer(p: seq<bv8>, i: nat)
    requires i < 8 * |p|
    ensures BytesToBits(p[i / 8 := p[i / 8] | Masks[7 - i % 8]]) == BytesToBits(p)[i := 1]
  {
    var p' := p[i / 8 := p[i / 8] | Masks[7 - i % 8]];
    forall j | 0 <= j < 8 * |p|
      ensures BytesToBits(p')[j] == BytesToBits(p)[i := 1][j]
    {
      SetBitAt(p, i, j);
    }
  }

  /** `p[i >> 3] &= ~(1 << (7 - (i & 7)))` clears bit i and no other. */
  lemma ClearBitOfBuffer(p: seq<bv8>, i: nat)
    requires i < 8 * |p|
    ensures BytesToBits(p[i / 8 := p[i / 8] & !Masks[7 - i % 8]]) == BytesToBits(p)[i := 0]
  {
    var p' := p[i / 8 := p[i / 8] & !Masks[7 - i % 8]];
    forall j | 0 <= j < 8 * |p|
      ensures BytesToBits(p')[j] == BytesToBits(p)[i := 0][j]
    {
      ClearBitAt(p, i, j);
    }
  }

  /** `p[i >> 3] ^= 1 << (7 - (i & 7))` inverts bit i and no other. */
  lemma FlipBitOfBuffer(p: seq<bv8>, i: nat)
    requires i < 8 * |p|
    ensures BytesToBits(p[i / 8 := p[i / 8] ^ Masks[7 - i % 8]]) == BytesToBits(p)[i := 1 - ReadBit(p, i)]
  {
    var p' := p[i / 8 := p[i / 8] ^ Masks[7 - i % 8]];
    forall j | 0 <= j < 8 * |p|
      ensures BytesToBits(p')[j] == BytesToBits(p)[i := 1 - ReadBit(p, i)][j]
    {
      FlipBitAt(p, i, j);
    }
  }

  /** Inverting bit i of a buffer: a single transmission error. */
  function FlipBit(p: seq<bv8>, i: nat): (r: seq<bv8>)
    requires i < 8 * |p|
    ensures |r| == |p|
    ensures BytesToBits(r) == BytesToBits(p)[i := 1 - ReadBit(p, i)]
  {
    FlipBitOfBuffer(p, i);
    p[i / 8 := p[i / 8] ^ Masks[7 - i % 8]]
  }

  /** WRITE_BIT(p, i, b): bit i becomes `b != 0`; every other bit of the
      buffer is kept. */
  method WriteBit(p: array<bv8>, i: nat, b: nat)
    requires i < 8 * p.Length
    modifies p
    ensures BytesToBits(p[..]) == old(BytesToBits(p[..]))[i := Norm(b)]
  {
    ghost var before := p[..];
    var k, m := i / 8, Masks[7 - i % 8];
    var x := if b != 0 then p[k] | m else p[k] & !m;
    WriteBitOfBuffer(before, i, b);
    p[k] := x;

  }

  /** WRITE_BIT on a buffer value. */
  lemma WriteBitOfBuffer(p: seq<bv8>, i: nat, b: nat)
    requires i < 8 * |p|
    ensures BytesToBits(p[i / 8 := if b != 0 then p[i / 8] | Masks[7 - i % 8] else p[i / 8] & !Masks[7 - i % 8]])
            == BytesToBits(p)[i := Norm(b)]
  {
    if b != 0 {
      SetBitOfBuffer(p, i);
    } else {
      ClearBitOfBuffer(p, i);
    }
  }

  /** READ_BIT after WRITE_BIT gives back `b != 0`, and no other bit moved. */
  lemma WriteThenRead(p: seq<bv8>, p': seq<bv8>, i: nat, b: nat)
    requires i < 8 * |p| && |p'| == |p|
    requires BytesToBits(p') == BytesToBits(p)[i := Norm(b)]
    ensures ReadBit(p', i) == Norm(b)
    ensures forall j :: 0 <= j < 8 * |p| && j != i ==> ReadBit(p', j) == ReadBit(p, j)
  {
    assert forall j :: 0 <= j < 8 * |p| ==> ReadBit(p', j) == BytesToBits(p')[j];
  }
}
