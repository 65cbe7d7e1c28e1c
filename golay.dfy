/**
 * The Golay (24,12) and (23,12) codes of the AMBE+2 frame. Their
 * implementation (CGolay24128) is not part of this model: the codec is
 * given the four operations as values and relies only on the contract
 * below, which every caller assumes of them.
 */
module Golay {
  import opened Bits

  datatype Codec = Codec(
    encode24128: nat -> nat,
    decode24128: nat -> nat,
    encode23127: nat -> nat,
    decode23127: nat -> nat)

  /** Assumed contract: a (24,12) codeword has 24 bits, a (23,12) codeword
      23 bits, and decoding an unaltered codeword returns its 12 data bits. */
  ghost predicate Valid(g: Codec) {
    && (forall x: nat :: g.encode24128(x) < Pow2(24))
    && (forall x: nat :: g.encode23127(x) < Pow2(23))
    && (forall x: nat :: x < Pow2(12) ==> g.decode24128(g.encode24128(x)) == x)
    && (forall x: nat :: x < Pow2(12) ==> g.decode23127(g.encode23127(x)) == x)
  }

  lemma Encode24Bound(g: Codec, x: nat)
    requires Valid(g)
    ensures g.encode24128(x) < Pow2(24)
  {
  }

  lemma Encode23Bound(g: Codec, x: nat)
    requires Valid(g)
    ensures g.encode23127(x) < Pow2(23)
  {
  }

  lemma Decode24Encode(g: Codec, x: nat)
    requires Valid(g) && x < Pow2(12)
    ensures g.decode24128(g.encode24128(x)) == x
  {
  }

  lemma Decode23Encode(g: Codec, x: nat)
    requires Valid(g) && x < Pow2(12)
    ensures g.decode23127(g.encode23127(x)) == x
  {
  }
}
