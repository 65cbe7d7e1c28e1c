/**
 * The 72-bit AMBE+2 frame of the codec library (opendmr.cpp): the nine
 * quantizer fields b[0..8] are packed MSB first into 49 voice bits, which
 * split into C0 (bits 0-11), C1 (bits 12-23) and C2 + C3 (bits 24-48). The
 * frame carries C0 as a Golay (24,12) codeword (A block, frame bits 0-23),
 * C1 as a Golay (23,12) codeword XOR the scrambler mask seeded by C0
 * (B block, bits 24-46), and C2 + C3 unprotected (C block, bits 47-71).
 */
module FrameCodec {
  import opened Bits
  import opened Bytes
  import opened Golay
  import opened Scrambler

  /** OPENDMR_AMBE_FRAME_BYTES and OPENDMR_AMBE_FRAME_BITS. */
  const FrameBytes := 9
  const FrameBits := 72
  const VoiceBits := 49

  /** b_lengths: the width of each quantizer field. */
  const Widths: seq<nat> := [7, 5, 5, 9, 7, 5, 4, 4, 3]

  /** Offsets[f] is the position of field f's first bit among the 49. */
  const Offsets: seq<nat> := [0, 7, 12, 17, 26, 33, 38, 42, 46, 49]

  lemma OffsetStep(n: nat)
    requires n < 9
    ensures Offsets[n + 1] == Offsets[n] + Widths[n]
  {
  }

  // ---------------------------------------------------------------------
  // Specification
  // ---------------------------------------------------------------------

  /** The first n fields of b, each as its low Widths[f] bits, MSB first. */
  function PackPrefix(b: seq<int>, n: nat): (r: seq<nat>)
    requires |b| == 9 && n <= 9
    ensures |r| == Offsets[n] && IsBits(r)
  {
    if n == 0 then []
    else
      OffsetStep(n - 1);
      PackPrefix(b, n - 1) + ToBits(b[n - 1], Widths[n - 1])
  }

  /** The 49 voice bits of fields b[0..8]. */
  function PackFields(b: seq<int>): (r: seq<nat>)
    requires |b| == 9
    ensures |r| == VoiceBits && IsBits(r)
  {
    PackPrefix(b, 9)
  }

  /** The 72 frame bits that carry the 49 voice bits d. */
  function WireBits(g: Codec, d: seq<nat>): (r: seq<nat>)
    requires |d| == VoiceBits
    ensures |r| == FrameBits && IsBits(r)
  {
    var c0, c1, cBlock := FromBits(d[..12]), FromBits(d[12..24]), FromBits(d[24..]);
    ToBits(g.encode24128(c0), 24)
      + ToBits(BitXor(g.encode23127(c1), PrngMask(c0)), 23)
      + ToBits(cBlock, 25)
  }

  /** The 49 voice bits a receiver recovers from the 72 frame bits f: the A
      block decoded, the B block descrambled with the mask seeded by the
      decoded A data and then decoded, the C block copied. */
  function ReceivedBits(g: Codec, f: seq<nat>): (r: seq<nat>)
    requires |f| == FrameBits
    ensures |r| == VoiceBits && IsBits(r)
  {
    var a, b, c := FromBits(f[..24]), FromBits(f[24..47]), FromBits(f[47..]);
    var aOrig := g.decode24128(a);
    var bOrig := g.decode23127(BitXor(b, PrngMask(aOrig)));
    ToBits(aOrig, 12) + ToBits(bOrig, 12) + ToBits(c, 25)
  }

  // ---------------------------------------------------------------------
  // Bit-field loops over the frame buffer
  // ---------------------------------------------------------------------

  /** The gather loops of decode_ambe_frame: for i < n, when frame bit
      start + i is set, OR in (TOP >> i) with TOP = 2^(n - 1). */
  method ReadField(p: seq<bv8>, start: nat, n: nat) returns (v: nat)
    requires start + n <= 8 * |p|
    ensures v == FromBits(BytesToBits(p)[start..start + n])
  {
    v := 0;
    var i := 0;
    while i < n
      invariant i <= n && FieldRead(p, start, n, i, v)
    {
      ReadStep(p, start, n, i, v);
      if ReadBit(p, start + i) == 1 {
        v := BitOr(v, Pow2(n - 1 - i));
      }
      i := i + 1;
    }
    ReadDone(p, start, n, v);
  }

  /** After i steps the gathered value holds the first i field bits, each
      at its final weight. */
  ghost predicate FieldRead(p: seq<bv8>, start: nat, n: nat, i: nat, v: nat)
    requires start + n <= 8 * |p| && i <= n
  {
    v == Weighted(BytesToBits(p)[start..start + n][..i], n - i)
  }

  lemma ReadStep(p: seq<bv8>, start: nat, n: nat, i: nat, v: nat)
    requires start + n <= 8 * |p| && i < n && FieldRead(p, start, n, i, v)
    ensures FieldRead(p, start, n, i + 1, if ReadBit(p, start + i) == 1 then BitOr(v, Pow2(n - 1 - i)) else v)
  {
    var s := BytesToBits(p)[start..start + n];
    BytesToBitsAreBits(p);
    assert s[i] == ReadBit(p, start + i);
    AccumulateStep(s, i, n - 1 - i, v);
  }

  lemma ReadDone(p: seq<bv8>, start: nat, n: nat, v: nat)
    requires start + n <= 8 * |p| && FieldRead(p, start, n, n, v)
    ensures v == FromBits(BytesToBits(p)[start..start + n])
  {
    var s := BytesToBits(p)[start..start + n];
    BytesToBitsAreBits(p);
    assert s[..n] == s;
    WeightedValue(s);
  }

  /** The scatter loops of encode_ambe_frame into a cleared region: for
      i < n, when bit n - 1 - i of v is set, set frame bit start + i. */
  method WriteField(p: array<bv8>, start: nat, n: nat, v: nat)
    requires start + n <= 8 * p.Length
    requires forall j :: start <= j < start + n ==> BytesToBits(p[..])[j] == 0
    modifies p
    ensures BytesToBits(p[..])
            == old(BytesToBits(p[..]))[..start] + ToBits(v, n) + old(BytesToBits(p[..]))[start + n..]
  {
    ghost var before := BytesToBits(p[..]);
    var i := 0;
    while i < n
      invariant i <= n && FieldWritten(BytesToBits(p[..]), before, start, n, v, i)
    {
      ghost var cur := BytesToBits(p[..]);
      assert before[start + i] == 0;
      if Bit(v, n - 1 - i) == 1 {
        WriteBit(p, start + i, 1);
      }
      WriteStep(cur, BytesToBits(p[..]), before, start, n, v, i);
      i := i + 1;
    }
    assert ToBits(v, n)[..n] == ToBits(v, n);
  }

  /** After i steps the region holds the first i bits of v, MSB first, and
      the rest of the buffer is as before. */
  ghost predicate FieldWritten(cur: seq<nat>, before: seq<nat>, start: nat, n: nat, v: nat, i: nat)
    requires start + n <= |before| && i <= n
  {
    cur == before[..start] + ToBits(v, n)[..i] + before[start + i..]
  }

  lemma WriteStep(cur: seq<nat>, next: seq<nat>, before: seq<nat>, start: nat, n: nat, v: nat, i: nat)
    requires start + n <= |before| && i < n && FieldWritten(cur, before, start, n, v, i)
    requires before[start + i] == 0
    requires next == if Bit(v, n - 1 - i) == 1 then cur[start + i := Norm(1)] else cur
    ensures FieldWritten(next, before, start, n, v, i + 1)
  {
    ToBitsAt(v, n, i);
    if Bit(v, n - 1 - i) == 1 {
      SpliceStep(before, ToBits(v, n), start, i);
    } else {
      SpliceKeep(before, ToBits(v, n), start, i);
    }
  }

  // ---------------------------------------------------------------------
  // The codec operations
  // ---------------------------------------------------------------------

  /** The three copy loops of decode_ambe_frame: entries start .. start+n-1
      of out become the n low bits of v, MSB first. */
  method SpreadBits(out: array<nat>, start: nat, n: nat, v: int)
    requires start + n <= out.Length
    modifies out
    ensures out[..] == old(out[..])[..start] + ToBits(v, n) + old(out[..])[start + n..]
  {
    ghost var before := out[..];
    ghost var t := ToBits(v, n);
    var i := 0;
    while i < n
      invariant i <= n
      invariant out[..] == before[..start] + t[..i] + before[start + i..]
    {
      ToBitsAt(v, n, i);
      SpliceStep(before, t, start, i);
      out[start + i] := Bit(v, n - 1 - i);
      i := i + 1;
    }
    assert t[..n] == t;
  }

  /** The packing loop of encode_ambe_frame: field i contributes its low
      Widths[i] bits, from bit Widths[i] - 1 down to bit 0 (the inner loop's
      j is Widths[i] - 1 - k for the k-th entry SpreadBits writes). */
  method PackVoiceBits(b: seq<int>) returns (bits49: array<nat>)
    requires |b| == 9
    ensures fresh(bits49) && bits49[..] == PackFields(b)
  {
    bits49 := new nat[VoiceBits];
    var pos := 0;
    var i := 0;
    while i < 9
      invariant i <= 9 && pos == Offsets[i]
      invariant bits49[..pos] == PackPrefix(b, i)
    {
      OffsetStep(i);
      ghost var before := bits49[..];
      ghost var t := ToBits(b[i], Widths[i]);
      SpreadBits(bits49, pos, Widths[i], b[i]);
      assert bits49[..pos + Widths[i]] == before[..pos] + t;
      pos := pos + Widths[i];
      i := i + 1;
    }
    assert bits49[..] == bits49[..pos];
  }

  /** The frame bits in terms of the three values the encoder computes. */
  lemma WireBitsOf(g: Codec, d: seq<nat>, c0: nat, c1: nat, cBlock: nat)
    requires |d| == VoiceBits
    requires c0 == FromBits(d[..12]) && c1 == FromBits(d[12..24]) && cBlock == FromBits(d[24..])
    ensures WireBits(g, d)
            == ToBits(g.encode24128(c0), 24) + ToBits(BitXor(g.encode23127(c1), PrngMask(c0)), 23)
               + ToBits(cBlock, 25)
  {
  }

  /** The first loop of encode_ambe_frame after packing: C0 and C1 gathered
      MSB first from voice bits 0-11 and 12-23. */
  method GatherHalves(bits49: array<nat>) returns (c0: nat, c1: nat)
    requires bits49.Length == VoiceBits && IsBits(bits49[..])
    ensures c0 == FromBits(bits49[..][..12]) && c1 == FromBits(bits49[..][12..24])
  {
    ghost var d := bits49[..];
    c0, c1 := 0, 0;
    var i := 0;
    while i < 12
      invariant i <= 12
      invariant c0 == FromBits(d[..i]) && c1 == FromBits(d[12..12 + i])
    {
      FromBitsSnoc(d[..i], d[i]);
      FromBitsSnoc(d[12..12 + i], d[12 + i]);
      assert d[..i + 1] == d[..i] + [d[i]];
      assert d[12..12 + i + 1] == d[12..12 + i] + [d[12 + i]];
      ShiftOrBit(c0, bits49[i]);
      ShiftOrBit(c1, bits49[12 + i]);
      c0 := BitOr(2 * c0, bits49[i]);
      c1 := BitOr(2 * c1, bits49[12 + i]);
      i := i + 1;
    }
  }

  /** The c_block loop of encode_ambe_frame: voice bits 24-48, MSB first. */
  method GatherCBlock(bits49: array<nat>) returns (cBlock: nat)
    requires bits49.Length == VoiceBits && IsBits(bits49[..])
    ensures cBlock == FromBits(bits49[..][24..])
  {
    ghost var d := bits49[..];
    cBlock := 0;
    var i := 24;
    while i < VoiceBits
      invariant 24 <= i <= VoiceBits
      invariant cBlock == FromBits(d[24..i])
    {
      FromBitsSnoc(d[24..i], d[i]);
      assert d[24..i + 1] == d[24..i] + [d[i]];
      ShiftOrBit(cBlock, bits49[i]);
      cBlock := BitOr(2 * cBlock, bits49[i]);
      i := i + 1;
    }
    assert d[24..VoiceBits] == d[24..];
  }

  /** memset(frame72, 0, OPENDMR_AMBE_FRAME_BYTES). */
  method ClearFrame(frame72: array<bv8>)
    requires frame72.Length == FrameBytes
    modifies frame72
    ensures BytesToBits(frame72[..]) == Zeros(FrameBits)
  {
    forall k | 0 <= k < FrameBytes {
      frame72[k] := 0;
    }
    assert frame72[..] == seq(FrameBytes, k => 0 as bv8);
    BytesToBitsZero(FrameBytes);
  }

  /** The output half of encode_ambe_frame: clear the frame, then write the
      A block (24 bits), the B block (23 bits) and the C block (25 bits). */
  method WriteBlocks(frame72: array<bv8>, a: nat, bCodeword: nat, cBlock: nat)
    requires frame72.Length == FrameBytes
    modifies frame72
    ensures BytesToBits(frame72[..]) == ToBits(a, 24) + ToBits(bCodeword, 23) + ToBits(cBlock, 25)
  {
    ClearFrame(frame72);
    ghost var z := Zeros(FrameBits);
    ghost var ta, tb, tc := ToBits(a, 24), ToBits(bCodeword, 23), ToBits(cBlock, 25);
    WriteField(frame72, 0, 24, a);
    ghost var s1 := ta + z[24..];
    assert BytesToBits(frame72[..]) == s1;
    WriteField(frame72, 24, 23, bCodeword);
    assert s1[..24] == ta && s1[47..] == z[47..];
    ghost var s2 := ta + tb + z[47..];
    assert BytesToBits(frame72[..]) == s2;
    WriteField(frame72, 47, 25, cBlock);
    assert s2[..47] == ta + tb && s2[72..] == [];
  }

  /** encode_ambe_frame: the frame carries exactly WireBits of the fields'
      49 voice bits. */
  method EncodeAmbeFrame(g: Codec, b: seq<int>, frame72: array<bv8>)
    requires |b| == 9 && frame72.Length == FrameBytes
    modifies frame72
    ensures BytesToBits(frame72[..]) == WireBits(g, PackFields(b))
  {
    var bits49 := PackVoiceBits(b);
    ghost var d := bits49[..];
    var c0, c1 := GatherHalves(bits49);
    var a := g.encode24128(c0);
    var bCodeword := g.encode23127(c1);
    var prngMask := ComputePrngMask23(c0);
    bCodeword := BitXor(bCodeword, prngMask);
    var cBlock := GatherCBlock(bits49);
    ghost var wire := ToBits(a, 24) + ToBits(bCodeword, 23) + ToBits(cBlock, 25);
    WireBitsOf(g, d, c0, c1, cBlock);
    assert WireBits(g, d) == wire;
    WriteBlocks(frame72, a, bCodeword, cBlock);
  }

  /** The received bits in terms of the three values the decoder gathers. */
  lemma ReceivedBitsOf(g: Codec, f: seq<nat>, a: nat, b: nat, c: nat)
    requires |f| == FrameBits
    requires a == FromBits(f[..24]) && b == FromBits(f[24..47]) && c == FromBits(f[47..])
    ensures ReceivedBits(g, f)
            == ToBits(g.decode24128(a), 12)
               + ToBits(g.decode23127(BitXor(b, PrngMask(g.decode24128(a)))), 12)
               + ToBits(c, 25)
  {
  }

  /** The output half of decode_ambe_frame: clear ambe_d, then fill entries
      0-11 from the decoded A data, 12-23 from the decoded B data and 24-48
      from the C block. */
  method SpreadBlocks(ambeD: array<nat>, aOrig: nat, bOrig: nat, c: nat)
    requires ambeD.Length == VoiceBits
    modifies ambeD
    ensures ambeD[..] == ToBits(aOrig, 12) + ToBits(bOrig, 12) + ToBits(c, 25)
  {
    forall k | 0 <= k < VoiceBits {
      ambeD[k] := 0;
    }
    ghost var z := ambeD[..];
    ghost var ta, tb, tc := ToBits(aOrig, 12), ToBits(bOrig, 12), ToBits(c, 25);
    SpreadBits(ambeD, 0, 12, aOrig);
    assert ambeD[..] == ta + z[12..];
    SpreadBits(ambeD, 12, 12, bOrig);
    assert (ta + z[12..])[..12] == ta && (ta + z[12..])[24..] == z[24..];
    assert ambeD[..] == ta + tb + z[24..];
    SpreadBits(ambeD, 24, 25, c);
    assert (ta + tb + z[24..])[..24] == ta + tb && (ta + tb + z[24..])[49..] == [];
  }

  /** decode_ambe_frame: ambe_d receives the voice bits recovered from the
      frame. */
  method DecodeAmbeFrame(g: Codec, frame72: array<bv8>, ambeD: array<nat>)
    requires frame72.Length == FrameBytes && ambeD.Length == VoiceBits
    modifies ambeD
    ensures ambeD[..] == ReceivedBits(g, BytesToBits(frame72[..]))
  {
    ghost var f := BytesToBits(frame72[..]);
    var a := ReadField(frame72[..], 0, 24);
    var b := ReadField(frame72[..], 24, 23);
    var c := ReadField(frame72[..], 47, 25);
    assert f[0..24] == f[..24] && f[47..72] == f[47..];

    var aOrig := g.decode24128(a);
    var prngMask := ComputePrngMask23(aOrig);
    var bDescrambled := BitXor(b, prngMask);
    var bOrig := g.decode23127(bDescrambled);
    SpreadBlocks(ambeD, aOrig, bOrig, c);
    ReceivedBitsOf(g, f, a, b, c);
  }

  /** opendmr_convert_frame: with to_bits, each frame bit becomes one array
      entry; otherwise the frame is cleared and bit i is set exactly when
      entry i is nonzero. */
  method ConvertFrame(bytes: array<bv8>, bits: array<nat>, toBits: bool)
    requires bytes.Length == FrameBytes && bits.Length == FrameBits
    modifies bytes, bits
    ensures toBits ==> bits[..] == BytesToBits(old(bytes[..])) && bytes[..] == old(bytes[..])
    ensures !toBits ==> BytesToBits(bytes[..]) == NormAll(old(bits[..])) && bits[..] == old(bits[..])
  {
    if toBits {
      FrameToBits(bytes, bits);
    } else {
      BitsToFrame(bits, bytes);
    }
  }

  /** The bytes-to-bits loop of opendmr_convert_frame. */
  method FrameToBits(bytes: array<bv8>, bits: array<nat>)
    requires bytes.Length == FrameBytes && bits.Length == FrameBits
    modifies bits
    ensures bits[..] == BytesToBits(bytes[..])
  {
    ghost var src := BytesToBits(bytes[..]);
    for i := 0 to FrameBits
      invariant forall k :: 0 <= k < i ==> bits[k] == src[k]
    {
      bits[i] := ReadBit(bytes[..], i);
    }
  }

  /** The bits-to-bytes half of opendmr_convert_frame: memset, then set
      bit i for every nonzero entry. */
  method BitsToFrame(bits: array<nat>, bytes: array<bv8>)
    requires bytes.Length == FrameBytes && bits.Length == FrameBits
    modifies bytes
    ensures BytesToBits(bytes[..]) == NormAll(bits[..])
  {
    ghost var src := NormAll(bits[..]);
    ClearFrame(bytes);
    for i := 0 to FrameBits
      invariant BytesToBits(bytes[..]) == src[..i] + Zeros(FrameBits - i)
    {
      ghost var cur := BytesToBits(bytes[..]);
      if bits[i] != 0 {
        WriteBit(bytes, i, 1);
      }
      FillNext(src, cur, BytesToBits(bytes[..]), i, bits[i]);
    }
  }

  lemma FillNext(src: seq<nat>, cur: seq<nat>, next: seq<nat>, i: nat, x: nat)
    requires i < |src| && cur == src[..i] + Zeros(|src| - i) && src[i] == Norm(x)
    requires next == if x != 0 then cur[i := Norm(1)] else cur
    ensures next == src[..i + 1] + Zeros(|src| - (i + 1))
  {
    FillStep(src, i);
    if x == 0 {
      assert cur[i] == 0;
      assert cur[i := 0] == cur;
    }
  }

  // ---------------------------------------------------------------------
  // Properties of the packing
  // ---------------------------------------------------------------------

  /** The fields a decoder reads back from 49 voice bits. */
  function UnpackFields(d: seq<nat>): (r: seq<nat>)
    requires |d| == VoiceBits
    ensures |r| == 9
  {
    seq(9, f requires 0 <= f < 9 => FromBits(d[Offsets[f]..Offsets[f + 1]]))
  }

  lemma OffsetsMonotone(f: nat, n: nat)
    requires f < n <= 9
    ensures Offsets[f + 1] <= Offsets[n]
  {
  }

  /** Field f < n occupies bits Offsets[f] .. Offsets[f + 1] - 1 of the
      first n fields. */
  lemma {:induction false} PrefixField(b: seq<int>, n: nat, f: nat)
    requires |b| == 9 && f < n <= 9
    ensures Offsets[f + 1] <= Offsets[n]
    ensures PackPrefix(b, n)[Offsets[f]..Offsets[f + 1]] == ToBits(b[f], Widths[f])
    decreases n
  {
    OffsetsMonotone(f, n);
    OffsetStep(n - 1);
    OffsetStep(f);
    var p, t := PackPrefix(b, n - 1), ToBits(b[n - 1], Widths[n - 1]);
    var lo, hi := Offsets[f], Offsets[f + 1];
    assert PackPrefix(b, n) == p + t;
    if f == n - 1 {
      SliceRight(p, t);
    } else {
      PrefixField(b, n - 1, f);
      SliceLeft(p, t, lo, hi);
    }
  }

  /** Bits Offsets[f] .. Offsets[f + 1] - 1 of the voice bits are the low
      Widths[f] bits of field f, MSB first, so the decoder reads back b[f]
      modulo 2^Widths[f]. */
  lemma PackedField(b: seq<int>, f: nat)
    requires |b| == 9 && f < 9
    ensures PackFields(b)[Offsets[f]..Offsets[f + 1]] == ToBits(b[f], Widths[f])
    ensures UnpackFields(PackFields(b))[f] == b[f] % Pow2(Widths[f])
  {
    PrefixField(b, 9, f);
    FromToBits(b[f], Widths[f]);
  }

  /** Unpacking the packed fields gives each field's low bits. */
  lemma UnpackPack(b: seq<int>)
    requires |b| == 9
    ensures forall f :: 0 <= f < 9 ==> UnpackFields(PackFields(b))[f] == b[f] % Pow2(Widths[f])
  {
    forall f | 0 <= f < 9
      ensures UnpackFields(PackFields(b))[f] == b[f] % Pow2(Widths[f])
    {
      PackedField(b, f);
    }
  }

  lemma {:induction false} PackPrefixUnpack(d: seq<nat>, n: nat)
    requires |d| == VoiceBits && IsBits(d) && n <= 9
    ensures PackPrefix(UnpackFields(d), n) == d[..Offsets[n]]
    decreases n
  {
    if n > 0 {
      OffsetStep(n - 1);
      OffsetsMonotone(n - 1, 9);
      var lo, hi := Offsets[n - 1], Offsets[n];
      PackPrefixUnpack(d, n - 1);
      var slice := d[lo..hi];
      ToFromBits(slice);
      PrefixConcat(d, lo, hi);
    }
  }

  /** Packing the unpacked fields gives the voice bits back: every one of
      the 49 bits belongs to exactly one field. */
  lemma PackUnpack(d: seq<nat>)
    requires |d| == VoiceBits && IsBits(d)
    ensures PackFields(UnpackFields(d)) == d
  {
    PackPrefixUnpack(d, 9);
  }

  /** Unpacked fields fit their widths. */
  lemma UnpackBound(d: seq<nat>, f: nat)
    requires |d| == VoiceBits && IsBits(d) && f < 9
    ensures UnpackFields(d)[f] < Pow2(Widths[f])
  {
    OffsetStep(f);
    FromBitsBound(d[Offsets[f]..Offsets[f + 1]]);
  }

  /** Two field vectors agree on the low Widths[f] bits of every field. */
  predicate SameLowBits(b: seq<int>, c: seq<int>)
    requires |b| == 9 && |c| == 9
  {
    forall f :: 0 <= f < 9 ==> b[f] % Pow2(Widths[f]) == c[f] % Pow2(Widths[f])
  }

  lemma {:induction false} PackPrefixLowBits(b: seq<int>, c: seq<int>, n: nat)
    requires |b| == 9 && |c| == 9 && n <= 9 && SameLowBits(b, c)
    ensures PackPrefix(b, n) == PackPrefix(c, n)
    decreases n
  {
    if n > 0 {
      PackPrefixLowBits(b, c, n - 1);
      ToBitsMod(b[n - 1], Widths[n - 1]);
      ToBitsMod(c[n - 1], Widths[n - 1]);
    }
  }

  /** Only the low Widths[f] bits of each field reach the voice bits: two
      field vectors pack alike exactly when they agree on those bits. */
  lemma PackLowBitsOnly(b: seq<int>, c: seq<int>)
    requires |b| == 9 && |c| == 9
    ensures PackFields(b) == PackFields(c) <==> SameLowBits(b, c)
  {
    if PackFields(b) == PackFields(c) {
      UnpackPack(b);
      UnpackPack(c);
    }
    if SameLowBits(b, c) {
      PackPrefixLowBits(b, c, 9);
    }
  }

  // ---------------------------------------------------------------------
  // Properties of the frame
  // ---------------------------------------------------------------------

  /** Frame layout: bits 0-23 are the (24,12) codeword of C0 and bits 24-46
      the scrambled (23,12) codeword of C1, each MSB first, and bits 47-71
      are voice bits 24-48 verbatim. */
  lemma WireLayout(g: Codec, d: seq<nat>)
    requires |d| == VoiceBits && IsBits(d)
    ensures forall i :: 0 <= i < 24 ==>
              WireBits(g, d)[i] == Bit(g.encode24128(FromBits(d[..12])), 23 - i)
    ensures forall i :: 24 <= i < 47 ==>
              WireBits(g, d)[i]
              == Bit(BitXor(g.encode23127(FromBits(d[12..24])), PrngMask(FromBits(d[..12]))), 46 - i)
    ensures WireBits(g, d)[47..] == d[24..]
  {
    var c0, c1, cBlock := FromBits(d[..12]), FromBits(d[12..24]), FromBits(d[24..]);
    var ta := ToBits(g.encode24128(c0), 24);
    var tb := ToBits(BitXor(g.encode23127(c1), PrngMask(c0)), 23);
    var tc := ToBits(cBlock, 25);
    assert WireBits(g, d) == ta + tb + tc;
    forall i | 0 <= i < 24
      ensures WireBits(g, d)[i] == Bit(g.encode24128(c0), 23 - i)
    {
      IndexOfThree(ta, tb, tc, i);
      ToBitsAt(g.encode24128(c0), 24, i);
    }
    forall i | 24 <= i < 47
      ensures WireBits(g, d)[i] == Bit(BitXor(g.encode23127(c1), PrngMask(c0)), 46 - i)
    {
      IndexOfThree(ta, tb, tc, i);
      ToBitsAt(BitXor(g.encode23127(c1), PrngMask(c0)), 23, i - 24);
    }
    ToFromBits(d[24..]);
    SlicesOfThree(ta, tb, tc);
  }

  /** Round trip: a receiver recovers the 49 voice bits of every frame,
      because the descrambling mask is seeded by the decoded A data, which
      is C0 itself. */
  lemma FrameRoundTrip(g: Codec, d: seq<nat>)
    requires Valid(g) && |d| == VoiceBits && IsBits(d)
    ensures ReceivedBits(g, WireBits(g, d)) == d
  {
    var d0, d1, d2 := d[..12], d[12..24], d[24..];
    var c0, c1, cBlock := FromBits(d0), FromBits(d1), FromBits(d2);
    FromBitsBound(d0);
    FromBitsBound(d1);
    FromBitsBound(d2);
    var a := g.encode24128(c0);
    var m := PrngMask(c0);
    var bw := BitXor(g.encode23127(c1), m);
    PrngMaskBound(c0);
    Encode24Bound(g, c0);
    Encode23Bound(g, c1);
    XorBound(g.encode23127(c1), m, 23);
    var ta, tb, tc := ToBits(a, 24), ToBits(bw, 23), ToBits(cBlock, 25);
    var f := WireBits(g, d);
    WireBitsOf(g, d, c0, c1, cBlock);
    SlicesOfThree(ta, tb, tc);
    FromToBitsSmall(a, 24);
    FromToBitsSmall(bw, 23);
    FromToBitsSmall(cBlock, 25);
    XorTwice(g.encode23127(c1), m);
    ReceivedBitsOf(g, f, a, bw, cBlock);
    Decode24Encode(g, c0);
    Decode23Encode(g, c1);
    ToFromBits(d0);
    ToFromBits(d1);
    ToFromBits(d2);
    SplitThree(d, 12, 24);
  }

  /** Received bits 0-23 depend on frame bits 0-46 only. */
  lemma ReceivedProtectedPart(g: Codec, f: seq<nat>, f': seq<nat>)
    requires |f| == FrameBits && |f'| == FrameBits && f[..47] == f'[..47]
    ensures ReceivedBits(g, f)[..24] == ReceivedBits(g, f')[..24]
  {
    assert f[..24] == f[..47][..24] && f'[..24] == f'[..47][..24];
    assert f[24..47] == f[..47][24..] && f'[24..47] == f'[..47][24..];
  }

  /** The C block is unprotected passthrough: received bit 24 + i is frame
      bit 47 + i. */
  lemma ReceivedCBlock(g: Codec, f: seq<nat>)
    requires |f| == FrameBits && IsBits(f)
    ensures ReceivedBits(g, f)[24..] == f[47..]
  {
    ToFromBits(f[47..]);
  }

  /** One bit error in the C block changes exactly the received bit it
      carries and nothing else. */
  lemma CBlockFlip(g: Codec, f: seq<nat>, i: nat)
    requires |f| == FrameBits && IsBits(f) && 47 <= i < FrameBits
    ensures ReceivedBits(g, f)[i - 23] == f[i]
    ensures ReceivedBits(g, f[i := 1 - f[i]])
            == ReceivedBits(g, f)[i - 23 := 1 - ReceivedBits(g, f)[i - 23]]
  {
    var f' := f[i := 1 - f[i]];
    var r, r' := ReceivedBits(g, f), ReceivedBits(g, f');
    var head, c, c' := r[..24], f[47..], f'[47..];
    assert f[..47] == f'[..47];
    assert c' == c[i - 47 := 1 - f[i]];
    ReceivedProtectedPart(g, f, f');
    ReceivedCBlock(g, f);
    ReceivedCBlock(g, f');
    assert r == head + c;
    assert r' == head + c';
    UpdateRight(head, c, i - 47, 1 - f[i]);
  }

  /** The same, stated on the 9-byte frame the decoder reads. */
  lemma CBlockFlipInFrame(g: Codec, p: seq<bv8>, i: nat)
    requires |p| == FrameBytes && 47 <= i < FrameBits
    ensures ReceivedBits(g, BytesToBits(FlipBit(p, i)))
            == ReceivedBits(g, BytesToBits(p))[i - 23 := 1 - ReceivedBits(g, BytesToBits(p))[i - 23]]
  {
    var f, f' := BytesToBits(p), BytesToBits(FlipBit(p, i));
    BytesToBitsAreBits(p);
    assert f' == f[i := 1 - f[i]];
    CBlockFlip(g, f, i);
  }

  /** A bit array that holds only zeros and ones is its own normalisation. */
  lemma NormAllOfBits(s: seq<nat>)
    requires IsBits(s)
    ensures NormAll(s) == s
  {
  }

  /** opendmr_convert_frame bytes to bits and back returns the original
      bytes: the second call's result is the only buffer that reads as the
      first call's bits. */
  lemma ConvertRoundTrip(p: seq<bv8>, q: seq<bv8>)
    requires |p| == |q| && BytesToBits(q) == NormAll(BytesToBits(p))
    ensures q == p
  {
    BytesToBitsAreBits(p);
    NormAllOfBits(BytesToBits(p));
    BytesToBitsInjective(q, p);
  }
}
