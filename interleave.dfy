/**
 * encode_dmr (encoder/mbeenc.cpp): the encoder's own 49-bit to 72-bit DMR
 * framing. Voice bits 0-11 (aOrig) are sent as a Golay (24,12) codeword,
 * bits 12-23 (bOrig) as a Golay (23,12) codeword shifted right by one and
 * XORed with PRNG_TABLE[aOrig] shifted right by one, bits 24-48 (cOrig)
 * raw, and the three blocks are spread over the 72 frame bits by the
 * DMR_A/B/C_TABLE interleaving tables.
 */
module DmrInterleave {
  import opened Bits
  import opened Bytes
  import opened Golay
  import FrameCodec

  /** DMR_A_TABLE, DMR_B_TABLE and DMR_C_TABLE: frame position of each bit
      of the A (24), B (23) and C (25) blocks. */
  const DmrATable: seq<nat> := [
    0, 4, 8, 12, 16, 20, 24, 28, 32, 36, 40, 44, 48, 52, 56, 60, 64, 68, 1, 5, 9, 13, 17, 21]
  const DmrBTable: seq<nat> := [
    25, 29, 33, 37, 41, 45, 49, 53, 57, 61, 65, 69, 2, 6, 10, 14, 18, 22, 26, 30, 34, 38, 42]
  const DmrCTable: seq<nat> := [
    46, 50, 54, 58, 62, 66, 70, 3, 7, 11, 15, 19, 23, 27, 31, 35, 39, 43, 47, 51, 55, 59, 63, 67, 71]

  /** The three tables, indexed by block: 0 = A, 1 = B, 2 = C. */
  const Tables: seq<seq<nat>> := [DmrATable, DmrBTable, DmrCTable]

  /** PRNG_TABLE: 31 rows of 8 entries. */
  const PrngTable: seq<nat> := [
    0x000000, 0x000001, 0x000002, 0x000003, 0x000004, 0x000007, 0x000006, 0x000005,
    0x000008, 0x000009, 0x00000E, 0x00000F, 0x00000A, 0x00000B, 0x00000C, 0x00000D,
    0x000010, 0x000011, 0x000012, 0x000013, 0x00001C, 0x00001D, 0x00001A, 0x00001B,
    0x000018, 0x000019, 0x000016, 0x000017, 0x000014, 0x000015, 0x00003A, 0x00003B,
    0x000024, 0x000025, 0x000026, 0x000027, 0x000020, 0x000021, 0x000022, 0x000023,
    0x000038, 0x000039, 0x00002E, 0x00002F, 0x000034, 0x000035, 0x00002C, 0x00002D,
    0x000028, 0x000029, 0x00002A, 0x00002B, 0x00003C, 0x00003D, 0x000032, 0x000033,
    0x000030, 0x000031, 0x000036, 0x000037, 0x00006C, 0x00006D, 0x00006A, 0x00006B,
    0x000048, 0x000049, 0x00004E, 0x00004F, 0x00004A, 0x00004B, 0x00004C, 0x00004D,
    0x000074, 0x000075, 0x000076, 0x000077, 0x000070, 0x000071, 0x000072, 0x000073,
    0x000068, 0x000069, 0x00005E, 0x00005F, 0x000054, 0x000055, 0x00005C, 0x00005D,
    0x000058, 0x000059, 0x00005A, 0x00005B, 0x00007C, 0x00007D, 0x000062, 0x000063,
    0x000040, 0x000041, 0x000046, 0x000047, 0x000044, 0x000045, 0x00007A, 0x00007B,
    0x000078, 0x000079, 0x00007E, 0x00007F, 0x00006E, 0x00006F, 0x000064, 0x000065,
    0x000066, 0x000067, 0x000060, 0x000061, 0x000042, 0x000043, 0x000050, 0x000051,
    0x000052, 0x000053, 0x00009C, 0x00009D, 0x00009A, 0x00009B, 0x000098, 0x000099,
    0x000090, 0x000091, 0x000096, 0x000097, 0x000094, 0x000095, 0x0000DA, 0x0000DB,
    0x0000D8, 0x0000D9, 0x0000E8, 0x0000E9, 0x0000EE, 0x0000EF, 0x0000EC, 0x0000ED,
    0x0000E4, 0x0000E5, 0x0000E6, 0x0000E7, 0x0000E0, 0x0000E1, 0x0000E2, 0x0000E3,
    0x0000DC, 0x0000DD, 0x0000C2, 0x0000C3, 0x0000C0, 0x0000C1, 0x0000C6, 0x0000C7,
    0x0000F8, 0x0000F9, 0x0000FE, 0x0000FF, 0x0000FA, 0x0000FB, 0x0000FC, 0x0000FD,
    0x0000F4, 0x0000F5, 0x0000F6, 0x0000F7, 0x0000F0, 0x0000F1, 0x0000F2, 0x0000F3,
    0x0000C4, 0x0000C5, 0x0000CA, 0x0000CB, 0x0000D4, 0x0000D5, 0x0000CC, 0x0000CD,
    0x0000C8, 0x0000C9, 0x0000CE, 0x0000CF, 0x0000D0, 0x0000D1, 0x0000DE, 0x0000DF,
    0x000080, 0x000081, 0x000086, 0x000087, 0x000084, 0x000085, 0x0000BA, 0x0000BB,
    0x0000B8, 0x0000B9, 0x0000BE, 0x0000BF, 0x0000AE, 0x0000AF, 0x0000A4, 0x0000A5,
    0x0000A6, 0x0000A7, 0x0000A0, 0x0000A1, 0x000082, 0x000083, 0x000092, 0x000093,
    0x0000D2, 0x0000D3, 0x0000D6, 0x0000D7, 0x000088, 0x000089, 0x00008E, 0x00008F,
    0x00008A, 0x00008B, 0x00008C, 0x00008D, 0x0000B4, 0x0000B5, 0x0000B6, 0x0000B7,
    0x0000B0, 0x0000B1, 0x0000B2, 0x0000B3, 0x0000AC, 0x0000AD, 0x0000A2, 0x0000A3,
    0x0000BC, 0x0000BD, 0x0000AA, 0x0000AB, 0x0000A8, 0x0000A9, 0x0000AE, 0x0000AF
  ]

  /** Block sizes 24, 23 and 25. */
  function BlockSize(blk: nat): (n: nat)
    requires blk < 3
    ensures n == |Tables[blk]|
  {
    if blk == 0 then 24 else if blk == 1 then 23 else 25
  }

  /** The block and the index within it whose bit frame position k carries:
      the inverse of the three tables. */
  function Slot(k: nat): (r: (nat, nat))
    requires k < 72
    ensures r.0 < 3 && r.1 < BlockSize(r.0)
  {
    var q, m := k / 4, k % 4;
    if m == 0 then (0, q)
    else if m == 1 then (if q < 6 then (0, 18 + q) else (1, q - 6))
    else if m == 2 then (if q < 11 then (1, 12 + q) else (2, q - 11))
    else (2, 7 + q)
  }

  /** The tables are arithmetic: A runs over 0, 4, .., 68 then 1, 5, .., 21;
      B over 25, 29, .., 69 then 2, 6, .., 42; C over 46, 50, .., 70 then
      3, 7, .., 71. */
  lemma TableA(i: nat)
    requires i < 24
    ensures DmrATable[i] == if i < 18 then 4 * i else 4 * (i - 18) + 1
  {
  }

  lemma TableB(i: nat)
    requires i < 23
    ensures DmrBTable[i] == if i < 12 then 25 + 4 * i else 2 + 4 * (i - 12)
  {
  }

  lemma TableC(i: nat)
    requires i < 25
    ensures DmrCTable[i] == if i < 7 then 46 + 4 * i else 3 + 4 * (i - 7)
  {
  }

  /** Every table entry is a frame position, and Slot finds it again. */
  lemma SlotOfTable(blk: nat, i: nat)
    requires blk < 3 && i < BlockSize(blk)
    ensures Tables[blk][i] < 72 && Slot(Tables[blk][i]) == (blk, i)
  {
    var k := Tables[blk][i];
    if blk == 0 {
      TableA(i);
      if i < 18 {
        DivMod(k, 4, i, 0);
      } else {
        DivMod(k, 4, i - 18, 1);
      }
    } else if blk == 1 {
      TableB(i);
      if i < 12 {
        DivMod(k, 4, 6 + i, 1);
      } else {
        DivMod(k, 4, i - 12, 2);
      }
    } else {
      TableC(i);
      if i < 7 {
        DivMod(k, 4, 11 + i, 2);
      } else {
        DivMod(k, 4, i - 7, 3);
      }
    }
  }

  /** Every frame position is some table entry. */
  lemma TableOfSlot(k: nat)
    requires k < 72
    ensures Tables[Slot(k).0][Slot(k).1] == k
  {
    var (blk, i) := Slot(k);
    if blk == 0 {
      TableA(i);
    } else if blk == 1 {
      TableB(i);
    } else {
      TableC(i);
    }
  }

  /** The three tables together list each frame position 0 .. 71 exactly
      once. */
  lemma TablesArePermutation()
    ensures |DmrATable + DmrBTable + DmrCTable| == 72
    ensures forall i, j :: 0 <= i < j < 72 ==>
              (DmrATable + DmrBTable + DmrCTable)[i] != (DmrATable + DmrBTable + DmrCTable)[j]
    ensures forall k :: 0 <= k < 72 ==> k in DmrATable + DmrBTable + DmrCTable
  {
    var all := DmrATable + DmrBTable + DmrCTable;
    forall i | 0 <= i < 72
      ensures all[i] < 72 && Slot(all[i]) == SlotOfIndex(i)
    {
      var (blk, j) := SlotOfIndex(i);
      SlotOfTable(blk, j);
    }
    forall i, j | 0 <= i < j < 72
      ensures all[i] != all[j]
    {
      SlotOfIndexInjective(i, j);
    }
    forall k | 0 <= k < 72
      ensures k in all
    {
      TableOfSlot(k);
      var (blk, j) := Slot(k);
      assert all[IndexOfSlot(blk, j)] == k;
    }
  }

  /** Position i of the concatenated tables as a (block, index) pair. */
  function SlotOfIndex(i: nat): (r: (nat, nat))
    requires i < 72
    ensures r.0 < 3 && r.1 < BlockSize(r.0)
    ensures (DmrATable + DmrBTable + DmrCTable)[i] == Tables[r.0][r.1]
  {
    if i < 24 then (0, i) else if i < 47 then (1, i - 24) else (2, i - 47)
  }

  function IndexOfSlot(blk: nat, j: nat): (i: nat)
    requires blk < 3 && j < BlockSize(blk)
    ensures i < 72 && (DmrATable + DmrBTable + DmrCTable)[i] == Tables[blk][j]
  {
    if blk == 0 then j else if blk == 1 then 24 + j else 47 + j
  }

  lemma SlotOfIndexInjective(i: nat, j: nat)
    requires i < j < 72
    ensures SlotOfIndex(i) != SlotOfIndex(j)
  {
  }

  // ---------------------------------------------------------------------
  // Specification
  // ---------------------------------------------------------------------

  /** Three bit strings of the block sizes 24, 23 and 25. */
  ghost predicate Shaped(parts: seq<seq<nat>>) {
    |parts| == 3 && forall blk :: 0 <= blk < 3 ==> |parts[blk]| == BlockSize(blk)
  }

  /** The 72 frame bits that carry the three blocks: position
      Tables[blk][i] holds bit i of block blk. */
  function Interleave(parts: seq<seq<nat>>): (r: seq<nat>)
    requires Shaped(parts)
    ensures |r| == 72
  {
    seq(72, k requires 0 <= k < 72 => parts[Slot(k).0][Slot(k).1])
  }

  /** The three blocks read back from 72 frame bits. */
  function Deinterleave(f: seq<nat>): (parts: seq<seq<nat>>)
    requires |f| == 72
    ensures Shaped(parts)
  {
    TablesInRange();
    [seq(24, i requires 0 <= i < 24 => f[DmrATable[i]]),
     seq(23, i requires 0 <= i < 23 => f[DmrBTable[i]]),
     seq(25, i requires 0 <= i < 25 => f[DmrCTable[i]])]
  }

  lemma TablesInRange()
    ensures forall i :: 0 <= i < 24 ==> DmrATable[i] < 72
    ensures forall i :: 0 <= i < 23 ==> DmrBTable[i] < 72
    ensures forall i :: 0 <= i < 25 ==> DmrCTable[i] < 72
  {
    forall i | 0 <= i < 24 ensures DmrATable[i] < 72 { SlotOfTable(0, i); }
    forall i | 0 <= i < 23 ensures DmrBTable[i] < 72 { SlotOfTable(1, i); }
    forall i | 0 <= i < 25 ensures DmrCTable[i] < 72 { SlotOfTable(2, i); }
  }

  /** Frame position Tables[blk][i] carries bit i of block blk. */
  lemma InterleaveAt(parts: seq<seq<nat>>, blk: nat, i: nat)
    requires Shaped(parts) && blk < 3 && i < BlockSize(blk)
    ensures Tables[blk][i] < 72 && Interleave(parts)[Tables[blk][i]] == parts[blk][i]
  {
    SlotOfTable(blk, i);
  }

  /** Reading the blocks back from the interleaved frame gives the blocks. */
  lemma DeinterleaveInterleave(parts: seq<seq<nat>>)
    requires Shaped(parts)
    ensures Deinterleave(Interleave(parts)) == parts
  {
    var back := Deinterleave(Interleave(parts));
    forall blk, i | 0 <= blk < 3 && 0 <= i < BlockSize(blk)
      ensures back[blk][i] == parts[blk][i]
    {
      InterleaveAt(parts, blk, i);
    }
    assert back[0] == parts[0] && back[1] == parts[1] && back[2] == parts[2];
  }

  /** Interleaving the blocks read from a frame gives the frame. */
  lemma InterleaveDeinterleave(f: seq<nat>)
    requires |f| == 72
    ensures Interleave(Deinterleave(f)) == f
  {
    forall k | 0 <= k < 72
      ensures Interleave(Deinterleave(f))[k] == f[k]
    {
      TableOfSlot(k);
    }
  }

  /** Setting one bit of one block sets exactly its frame position. */
  lemma InterleaveUpdate(parts: seq<seq<nat>>, blk: nat, i: nat, v: nat)
    requires Shaped(parts) && blk < 3 && i < BlockSize(blk)
    ensures Tables[blk][i] < 72
    ensures var row: seq<nat> := parts[blk][i := v];
            Interleave(parts)[Tables[blk][i] := v] == Interleave(parts[blk := row])
  {
    SlotOfTable(blk, i);
    var row: seq<nat> := parts[blk][i := v];
    var parts' := parts[blk := row];
    forall k | 0 <= k < 72
      ensures Interleave(parts)[Tables[blk][i] := v][k] == Interleave(parts')[k]
    {
      TableOfSlot(k);
    }
  }

  /** After memset every block reads as zeros. */
  lemma InterleaveZeros()
    ensures Interleave([Zeros(24), Zeros(23), Zeros(25)]) == Zeros(72)
  {
  }

  /** The three values encode_dmr gathers from the input bits d. */
  function AOrig(d: seq<nat>): nat
    requires |d| >= 49
  {
    FromBits(d[..12])
  }

  function BOrig(d: seq<nat>): nat
    requires |d| >= 49
  {
    FromBits(d[12..24])
  }

  function COrig(d: seq<nat>): nat
    requires |d| >= 49
  {
    FromBits(d[24..49])
  }

  /** The B block: the (23,12) codeword of bOrig shifted right by one, XOR
      the table entry for aOrig shifted right by one. */
  function BBlock(g: Codec, prng: seq<nat>, d: seq<nat>): nat
    requires |d| >= 49 && AOrig(d) < |prng|
  {
    BitXor(g.encode23127(BOrig(d)) / 2, prng[AOrig(d)] / 2)
  }

  /** The three blocks encode_dmr sends for input bits d. */
  function DmrBlocks(g: Codec, prng: seq<nat>, d: seq<nat>): (parts: seq<seq<nat>>)
    requires |d| >= 49 && AOrig(d) < |prng|
    ensures Shaped(parts)
  {
    [ToBits(g.encode24128(AOrig(d)), 24), ToBits(BBlock(g, prng, d), 23), ToBits(COrig(d), 25)]
  }

  /** The 72 output bits of encode_dmr for input bits d. */
  function DmrBits(g: Codec, prng: seq<nat>, d: seq<nat>): (r: seq<nat>)
    requires |d| >= 49 && AOrig(d) < |prng|
    ensures |r| == 72
  {
    Interleave(DmrBlocks(g, prng, d))
  }

  // ---------------------------------------------------------------------
  // encode_dmr
  // ---------------------------------------------------------------------

  /** One step of an input loop: when bit x == s[i] is set, `acc |= MASK`
      with MASK = 2^k adds entry i of s at weight k. */
  lemma GatherStep(s: seq<nat>, i: nat, k: nat, acc: nat, mask: nat, x: nat)
    requires i < |s| && IsBits(s) && acc == Weighted(s[..i], k + 1)
    requires mask == Pow2(k) && x == s[i]
    ensures (if x == 1 then BitOr(acc, mask) else acc) == Weighted(s[..i + 1], k)
  {
    AccumulateStep(s, i, k, acc);
  }

  /** The state of the first input loop after i steps: acc holds the first
      i of the 12 bits s at weights 11 down to 12 - i. */
  ghost predicate Gathered(acc: nat, s: seq<nat>, i: nat)
    requires i <= |s| == 12
  {
    acc == Weighted(s[..i], 12 - i)
  }

  /** One iteration of the first input loop of encode_dmr. */
  lemma GatherPair(sa: seq<nat>, sb: seq<nat>, i: nat, mask: nat, x: nat, y: nat,
                   a: nat, b: nat, a': nat, b': nat)
    requires |sa| == 12 && |sb| == 12 && IsBits(sa) && IsBits(sb) && i < 12
    requires mask == Pow2(11 - i) && x == sa[i] && y == sb[i]
    requires Gathered(a, sa, i) && Gathered(b, sb, i)
    requires a' == (if x == 1 then BitOr(a, mask) else a)
    requires b' == (if y == 1 then BitOr(b, mask) else b)
    ensures Gathered(a', sa, i + 1) && Gathered(b', sb, i + 1)
    ensures i + 1 < 12 ==> mask / 2 == Pow2(11 - (i + 1))
  {
    GatherStep(sa, i, 11 - i, a, mask, x);
    GatherStep(sb, i, 11 - i, b, mask, y);
  }

  /** At the end of the first input loop the accumulator is the value. */
  lemma GatheredValue(acc: nat, s: seq<nat>)
    requires |s| == 12 && IsBits(s) && Gathered(acc, s, 12)
    ensures acc == FromBits(s)
  {
    assert s[..12] == s;
    WeightedValue(s);
  }

  /** The state of the first input loop after i iterations: both
      accumulators hold their first i input bits. */
  ghost predicate Halves(inp: seq<bv8>, i: nat, a: nat, b: nat)
    requires 7 <= |inp| && i <= 12
  {
    var d := BytesToBits(inp);
    Gathered(a, d[..12], i) && Gathered(b, d[12..24], i)
  }

  /** One iteration of the first input loop, in terms of the input bytes. */
  lemma HalvesStep(inp: seq<bv8>, i: nat, mask: nat, a: nat, b: nat, a': nat, b': nat)
    requires 7 <= |inp| && i < 12 && mask == Pow2(11 - i) && Halves(inp, i, a, b)
    requires a' == (if ReadBit(inp, i) == 1 then BitOr(a, mask) else a)
    requires b' == (if ReadBit(inp, i + 12) == 1 then BitOr(b, mask) else b)
    ensures Halves(inp, i + 1, a', b')
    ensures i + 1 < 12 ==> mask / 2 == Pow2(11 - (i + 1))
  {
    var d := BytesToBits(inp);
    BytesToBitsAreBits(inp);
    GatherPair(d[..12], d[12..24], i, mask, ReadBit(inp, i), ReadBit(inp, i + 12), a, b, a', b');
  }

  /** At the end of the first input loop the accumulators are the halves. */
  lemma HalvesDone(inp: seq<bv8>, a: nat, b: nat)
    requires 7 <= |inp| && Halves(inp, 12, a, b)
    ensures a == AOrig(BytesToBits(inp)) && b == BOrig(BytesToBits(inp))
  {
    var d := BytesToBits(inp);
    BytesToBitsAreBits(inp);
    GatheredValue(a, d[..12]);
    GatheredValue(b, d[12..24]);
  }

  /** The first input loop: MASK runs from 0x800 down, aOrig collects input
      bits 0-11 and bOrig input bits 12-23. */
  method ReadHalves(inp: seq<bv8>) returns (aOrig: nat, bOrig: nat)
    requires 7 <= |inp|
    ensures aOrig == AOrig(BytesToBits(inp)) && bOrig == BOrig(BytesToBits(inp))
  {
    aOrig, bOrig := 0, 0;
    assert Pow2(11) == 0x800 by { Pow2Masks(); }
    var mask := 0x800;
    var i := 0;
    while i < 12
      invariant i <= 12 && (i < 12 ==> mask == Pow2(11 - i))
      invariant Halves(inp, i, aOrig, bOrig)
    {
      ghost var a, b := aOrig, bOrig;
      if ReadBit(inp, i) == 1 {
        aOrig := BitOr(aOrig, mask);
      }
      if ReadBit(inp, i + 12) == 1 {
        bOrig := BitOr(bOrig, mask);
      }
      HalvesStep(inp, i, mask, a, b, aOrig, bOrig);
      i, mask := i + 1, mask / 2;
    }
    HalvesDone(inp, aOrig, bOrig);
  }

  /** The frame while an output loop runs: block blk holds the first i
      bits of t and zeros after them. */
  ghost function Partial(parts: seq<seq<nat>>, blk: nat, t: seq<nat>, i: nat): seq<nat>
    requires Shaped(parts) && blk < 3 && |t| == BlockSize(blk) && i <= |t|
  {
    var row: seq<nat> := t[..i] + Zeros(|t| - i);
    Interleave(parts[blk := row])
  }

  lemma PartialStart(parts: seq<seq<nat>>, blk: nat, t: seq<nat>)
    requires Shaped(parts) && blk < 3 && |t| == BlockSize(blk) && parts[blk] == Zeros(|t|)
    ensures Partial(parts, blk, t, 0) == Interleave(parts)
  {
    var row: seq<nat> := t[..0] + Zeros(|t|);
    assert row == parts[blk];
    assert parts[blk := row] == parts;
  }

  lemma PartialEnd(parts: seq<seq<nat>>, blk: nat, t: seq<nat>)
    requires Shaped(parts) && blk < 3 && |t| == BlockSize(blk)
    ensures Partial(parts, blk, t, |t|) == Interleave(parts[blk := t])
  {
    var row: seq<nat> := t[..|t|] + Zeros(0);
    assert row == t;
  }

  /** One iteration of an output loop: writing bit i of t at its table
      position extends the written prefix of block blk by one. */
  lemma ScatterStep(parts: seq<seq<nat>>, blk: nat, t: seq<nat>, i: nat)
    requires Shaped(parts) && blk < 3 && |t| == BlockSize(blk) && i < |t|
    ensures Tables[blk][i] < 72
    ensures Partial(parts, blk, t, i)[Tables[blk][i] := t[i]] == Partial(parts, blk, t, i + 1)
  {
    var row: seq<nat> := t[..i] + Zeros(|t| - i);
    var row': seq<nat> := t[..i + 1] + Zeros(|t| - (i + 1));
    InterleaveUpdate(parts[blk := row], blk, i, t[i]);
    FillStep(t, i);
    assert parts[blk := row][blk := row[i := t[i]]] == parts[blk := row'];
  }

  /** `v & MASK` with MASK = 2^(n - 1 - i) tests entry i of the n-bit
      rendering of v. */
  lemma ScatterBit(v: nat, n: nat, i: nat, mask: nat)
    requires i < n && mask == Pow2(n - 1 - i)
    ensures Norm(BitAnd(v, mask)) == ToBits(v, n)[i]
  {
    AndPow2(v, n - 1 - i);
  }

  /** One output loop: MASK runs from top = 2^(n - 1) down and bit
      Tables[blk][i] of the cleared block becomes `v & MASK`, so block blk
      of the frame becomes the n low bits of v. */
  method ScatterBlock(out: array<bv8>, blk: nat, v: nat, top: nat, ghost parts: seq<seq<nat>>)
    requires out.Length == FrameCodec.FrameBytes && blk < 3 && top == Pow2(BlockSize(blk) - 1)
    requires Shaped(parts) && parts[blk] == Zeros(BlockSize(blk))
    requires BytesToBits(out[..]) == Interleave(parts)
    modifies out
    ensures BytesToBits(out[..]) == Interleave(parts[blk := ToBits(v, BlockSize(blk))])
  {
    var table := Tables[blk];
    var n := |table|;
    ghost var t := ToBits(v, n);
    PartialStart(parts, blk, t);
    var mask := top;
    var i := 0;
    while i < n
      invariant i <= n && (i < n ==> mask == Pow2(n - 1 - i))
      invariant BytesToBits(out[..]) == Partial(parts, blk, t, i)
    {
      ScatterStep(parts, blk, t, i);
      ScatterBit(v, n, i, mask);
      WriteBit(out, table[i], BitAnd(v, mask));
      if i < n - 1 {
        Pow2Half(n - 1 - i);
      }
      i, mask := i + 1, mask / 2;
    }
    PartialEnd(parts, blk, t);
  }

  /** encode_dmr with the scrambling table as a parameter. The model reads
      every input bit before the output is cleared, as the source does, so
      in and out may be the same buffer. */
  method EncodeDmrWith(g: Codec, prng: seq<nat>, inp: array<bv8>, out: array<bv8>)
    requires 7 <= inp.Length && out.Length == FrameCodec.FrameBytes
    requires AOrig(BytesToBits(inp[..])) < |prng|
    modifies out
    ensures BytesToBits(out[..]) == DmrBits(g, prng, old(BytesToBits(inp[..])))
  {
    ghost var d := BytesToBits(inp[..]);
    var aOrig, bOrig := ReadHalves(inp[..]);
    var cOrig := FrameCodec.ReadField(inp[..], 24, 25);
    var a := g.encode24128(aOrig);
    var p := prng[aOrig] / 2;
    var b := g.encode23127(bOrig) / 2;
    b := BitXor(b, p);

    FrameCodec.ClearFrame(out);
    InterleaveZeros();
    Pow2Masks();
    ghost var z := [Zeros(24), Zeros(23), Zeros(25)];
    ghost var ta, tb, tc := ToBits(a, 24), ToBits(b, 23), ToBits(cOrig, 25);
    ScatterBlock(out, 0, a, 0x800000, z);
    assert z[0 := ta] == [ta, Zeros(23), Zeros(25)];
    ScatterBlock(out, 1, b, 0x400000, [ta, Zeros(23), Zeros(25)]);
    assert [ta, Zeros(23), Zeros(25)][1 := tb] == [ta, tb, Zeros(25)];
    ScatterBlock(out, 2, cOrig, 0x1000000, [ta, tb, Zeros(25)]);
    assert [ta, tb, Zeros(25)][2 := tc] == DmrBlocks(g, prng, d);
  }

  /** encode_dmr as written, with the 248-entry PRNG_TABLE: it is defined
      only for inputs whose aOrig indexes inside the table. */
  method EncodeDmr(g: Codec, inp: array<bv8>, out: array<bv8>)
    requires 7 <= inp.Length && out.Length == FrameCodec.FrameBytes
    requires AOrig(BytesToBits(inp[..])) < |PrngTable|
    modifies out
    ensures BytesToBits(out[..]) == DmrBits(g, PrngTable, old(BytesToBits(inp[..])))
  {
    EncodeDmrWith(g, PrngTable, inp, out);
  }

  /** encode_dmr with a scrambling table that has an entry for every 12-bit
      aOrig: defined for every input. */
  method EncodeDmrFullTable(g: Codec, prng: seq<nat>, inp: array<bv8>, out: array<bv8>)
    requires 7 <= inp.Length && out.Length == FrameCodec.FrameBytes && |prng| == 4096
    modifies out
    ensures AOrig(old(BytesToBits(inp[..]))) < |prng|
    ensures BytesToBits(out[..]) == DmrBits(g, prng, old(BytesToBits(inp[..])))
  {
    ghost var d := BytesToBits(inp[..]);
    BytesToBitsAreBits(inp[..]);
    FromBitsBound(d[..12]);
    EncodeDmrWith(g, prng, inp, out);
  }

  // ---------------------------------------------------------------------
  // Properties of encode_dmr
  // ---------------------------------------------------------------------

  /** The air layout of encode_dmr: position DMR_A_TABLE[i] carries bit
      23 - i of the (24,12) codeword, DMR_B_TABLE[i] bit 22 - i of the
      scrambled B block, and DMR_C_TABLE[i] input bit 24 + i unchanged. */
  lemma DmrLayout(g: Codec, prng: seq<nat>, d: seq<nat>, blk: nat, i: nat)
    requires |d| >= 49 && IsBits(d) && AOrig(d) < |prng| && blk < 3 && i < BlockSize(blk)
    ensures Tables[blk][i] < 72
    ensures DmrBits(g, prng, d)[Tables[blk][i]]
            == if blk == 0 then Bit(g.encode24128(AOrig(d)), 23 - i)
               else if blk == 1 then Bit(BBlock(g, prng, d), 22 - i)
               else d[24 + i]
  {
    InterleaveAt(DmrBlocks(g, prng, d), blk, i);
    if blk == 2 {
      assert IsBits(d[24..49]);
      ToFromBits(d[24..49]);
    }
  }

  /** The receiver inverts the scrambling: once aOrig is known (from the A
      codeword), XOR with the same table entry gives back the shifted
      (23,12) codeword of bOrig. */
  lemma DmrDescramble(g: Codec, prng: seq<nat>, d: seq<nat>)
    requires |d| >= 49 && AOrig(d) < |prng|
    ensures BitXor(BBlock(g, prng, d), prng[AOrig(d)] / 2) == g.encode23127(BOrig(d)) / 2
  {
    XorTwice(g.encode23127(BOrig(d)) / 2, prng[AOrig(d)] / 2);
  }

  /** The A block and the C bits can be read back from the frame: the
      (24,12) decoder gives aOrig, and the C positions give input bits
      24-48. */
  lemma DmrRecoverAC(g: Codec, prng: seq<nat>, d: seq<nat>)
    requires Valid(g) && |d| >= 49 && IsBits(d) && AOrig(d) < |prng|
    ensures g.decode24128(FromBits(Deinterleave(DmrBits(g, prng, d))[0])) == AOrig(d)
    ensures Deinterleave(DmrBits(g, prng, d))[2] == d[24..49]
  {
    var parts := DmrBlocks(g, prng, d);
    DeinterleaveInterleave(parts);
    var a := AOrig(d);
    assert parts[0] == ToBits(g.encode24128(a), 24);
    Encode24Bound(g, a);
    FromToBitsSmall(g.encode24128(a), 24);
    assert IsBits(d[..12]);
    FromBitsBound(d[..12]);
    Decode24Encode(g, a);
    assert IsBits(d[24..49]);
    ToFromBits(d[24..49]);
  }

  /** Bit 22 of the B block is always clear: both halves are shifted right
      by one before the XOR, so the first B position of the frame
      (DMR_B_TABLE[0], bit 25) is always sent as 0. */
  lemma DmrFirstBBitClear(g: Codec, prng: seq<nat>, d: seq<nat>)
    requires Valid(g) && |d| >= 49 && AOrig(d) < |prng| && prng[AOrig(d)] < Pow2(23)
    ensures DmrBits(g, prng, d)[25] == 0
  {
    var v := BBlock(g, prng, d);
    BBlockTopClear(g, prng, d);
    FirstBSlot(DmrBlocks(g, prng, d), v);
  }

  /** Frame bit 25 carries the top bit of the 23-bit B block. */
  lemma FirstBSlot(parts: seq<seq<nat>>, v: nat)
    requires Shaped(parts) && parts[1] == ToBits(v, 23)
    ensures Interleave(parts)[25] == Bit(v, 22)
  {
    ToBitsAt(v, 23, 0);
    InterleaveAt(parts, 1, 0);
  }

  /** The B block is below 2^22: bit 22 of both shifted halves is clear. */
  lemma BBlockTopClear(g: Codec, prng: seq<nat>, d: seq<nat>)
    requires Valid(g) && |d| >= 49 && AOrig(d) < |prng| && prng[AOrig(d)] < Pow2(23)
    ensures Bit(BBlock(g, prng, d), 22) == 0
  {
    var x, y := g.encode23127(BOrig(d)), prng[AOrig(d)];
    Encode23Bound(g, BOrig(d));
    HalfBound(x, 22);
    HalfBound(y, 22);
    XorBound(x / 2, y / 2, 22);
    BitAbove(BBlock(g, prng, d), 22);
  }

  /** PRNG_TABLE has 248 entries, but encode_dmr indexes it with the 12-bit
      aOrig: input bytes FF F0 (all of bits 0-11 set) give index 4095. */
  lemma PrngIndexOutOfRange()
    ensures |PrngTable| == 248
    ensures AOrig(BytesToBits([0xFF, 0xF0, 0, 0, 0, 0, 0])) == 4095
  {
    var d := BytesToBits([0xFF, 0xF0, 0, 0, 0, 0, 0]);
    assert d[0] == 1 && d[1] == 1 && d[2] == 1 && d[3] == 1;
    assert d[4] == 1 && d[5] == 1 && d[6] == 1 && d[7] == 1;
    assert d[8] == 1 && d[9] == 1 && d[10] == 1 && d[11] == 1;
    assert d[..12] == seq(12, _ => 1);
    OnesValue(12);
    Pow2Masks();
    assert Pow2(12) == 2 * Pow2(11);
  }

  /** A run of w one-bits reads as 2^w - 1. */
  lemma {:induction false} OnesValue(w: nat)
    ensures FromBits(seq(w, _ => 1)) == Pow2(w) - 1
  {
    if w > 0 {
      OnesValue(w - 1);
      assert seq(w, _ => 1) == seq(w - 1, _ => 1) + [1];
      FromBitsSnoc(seq(w - 1, _ => 1), 1);
    }
  }
}
