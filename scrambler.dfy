/**
 * The B-block scrambler of the AMBE+2 frame (compute_prng_mask_23bit): a
 * 16-bit linear congruential generator seeded from the 12 data bits of the
 * A block, whose 23 successive top bits form the mask XOR-ed onto the
 * (23,12) codeword.
 */
module Scrambler {
  import opened Bits

  /** pr[i] before thresholding: pr[0] = 16 * aOrig truncated to 16 bits,
      pr[i] = (173 * pr[i - 1] + 13849) mod 65536. The product 16 * aOrig is
      also truncated to 32 bits first, which cannot change its low 16 bits. */
  function Pr(a: nat, i: nat): (r: nat)
    ensures r < 65536
  {
    if i == 0 then (16 * a) % 65536 else (173 * Pr(a, i - 1) + 13849) % 65536
  }

  /** The mask bits MSB first: entry k is the top bit of pr[k + 1]. */
  function MaskBits(a: nat): (r: seq<nat>)
    ensures |r| == 23 && IsBits(r)
  {
    seq(23, k requires 0 <= k < 23 => if Pr(a, k + 1) >= 32768 then 1 else 0)
  }

  /** The 23-bit scrambling mask for A-block data a. */
  function PrngMask(a: nat): (r: nat)
  {
    FromBits(MaskBits(a))
  }

  /** compute_prng_mask_23bit: fill pr[0..23] with the generator, reduce
      pr[1..23] to their top bits, and collect those bits MSB first. */
  method ComputePrngMask23(aOrig: nat) returns (mask: nat)
    ensures mask == PrngMask(aOrig)
  {
    var pr := new nat[24];
    Generate(pr, aOrig);
    Threshold(pr, aOrig);
    mask := Collect(pr);
    assert pr[1..] == MaskBits(aOrig);
  }

  /** The first loop: pr[0] is the seed and pr[i] the next state. */
  method Generate(pr: array<nat>, aOrig: nat)
    requires pr.Length == 24
    modifies pr
    ensures forall k :: 0 <= k < 24 ==> pr[k] == Pr(aOrig, k)
  {
    pr[0] := ((16 * aOrig) % 0x1_0000_0000) % 65536;
    Truncate32To16(16 * aOrig);
    for i := 1 to 24
      invariant forall k :: 0 <= k < i ==> pr[k] == Pr(aOrig, k)
    {
      pr[i] := (173 * pr[i - 1] + 13849) % 65536;
    }
  }

  /** The second loop: pr[1..23] become their top bits, the mask bits. */
  method Threshold(pr: array<nat>, ghost aOrig: nat)
    requires pr.Length == 24 && forall k :: 0 <= k < 24 ==> pr[k] == Pr(aOrig, k)
    modifies pr
    ensures pr[1..] == MaskBits(aOrig)
  {
    ghost var before := pr[..];
    for i := 1 to 24
      invariant forall k :: 1 <= k < i ==> pr[k] == before[k] / 32768
      invariant forall k :: i <= k < 24 ==> pr[k] == before[k]
    {
      pr[i] := pr[i] / 32768;
    }
    forall k | 0 <= k < 23
      ensures pr[1..][k] == MaskBits(aOrig)[k]
    {
      TopBit(before[k + 1]);
    }
  }

  /** The third loop: the mask has bit 23 - i set for every nonzero pr[i]. */
  method Collect(pr: array<nat>) returns (mask: nat)
    requires pr.Length == 24 && IsBits(pr[1..])
    ensures mask == FromBits(pr[1..])
  {
    ghost var bits := pr[1..];
    mask := 0;
    for i := 1 to 24
      invariant mask == Weighted(bits[..i - 1], 24 - i)
    {
      AccumulateStep(bits, i - 1, 23 - i, mask);
      if pr[i] != 0 {
        mask := BitOr(mask, Pow2(23 - i));
      }
    }
    assert bits[..23] == bits;
    WeightedValue(bits);
  }

  /** `x / 32768` of a 16-bit value is its top bit. */
  lemma TopBit(x: nat)
    requires x < 65536
    ensures x / 32768 == if x >= 32768 then 1 else 0
  {
  }

  /** Truncating to 32 bits and then to 16 bits is truncating to 16 bits. */
  lemma Truncate32To16(x: nat)
    ensures (x % 0x1_0000_0000) % 65536 == x % 65536
  {
    var q, r := x / 0x1_0000_0000, x % 0x1_0000_0000;
    var q', r' := r / 65536, r % 65536;
    assert x == 65536 * (65536 * q + q') + r';
    DivMod(x, 65536, 65536 * q + q', r');
  }

  /** The mask fits the 23 bits of the B block. */
  lemma PrngMaskBound(a: nat)
    ensures PrngMask(a) < Pow2(23)
  {
    FromBitsBound(MaskBits(a));
  }

  /** Bit 23 - i of the mask, for i = 1 .. 23, is set exactly when
      pr[i] >= 32768. */
  lemma PrngMaskBit(a: nat, i: nat)
    requires 1 <= i <= 23
    ensures Bit(PrngMask(a), 23 - i) == (if Pr(a, i) >= 32768 then 1 else 0)
  {
    ToFromBits(MaskBits(a));
    ToBitsAt(PrngMask(a), 23, i - 1);
  }

  /** The generator is seeded with 16 * a modulo 2^16, so only the low 12
      bits of the A-block data select the mask. */
  lemma {:induction false} PrngLow12(a: nat, i: nat)
    ensures Pr(a, i) == Pr(a % 4096, i)
  {
    if i == 0 {
      DivMod(16 * a, 65536, a / 4096, 16 * (a % 4096));
    } else {
      PrngLow12(a, i - 1);
    }
  }

  lemma PrngMaskLow12(a: nat)
    ensures PrngMask(a) == PrngMask(a % 4096)
  {
    forall k | 0 <= k < 23
      ensures MaskBits(a)[k] == MaskBits(a % 4096)[k]
    {
      PrngLow12(a, k + 1);
    }
    assert MaskBits(a) == MaskBits(a % 4096);
  }
}
