/**
 * encode_49bit (encoder/mbeenc.cpp): the fixed scatter of the nine AMBE+2
 * parameter fields into the 49 voice bits that the encoder hands to its
 * own decoder-state update. Unlike the contiguous packing of
 * encode_ambe_frame, the high bits of every field come first (positions
 * 0-34) and the remaining low bits follow (positions 35-48).
 */
module ParamLayout {
  import opened Bits
  import FrameCodec

  /** Output position k of encode_49bit holds bit ShiftOf[k] of field
      FieldOf[k]. The table is kept in three parts: the high bits of fields
      0-3 (positions 0-19), of fields 4-8 (20-34), and the low bits
      (35-48). */
  const FieldHigh03: seq<nat> := [0, 0, 0, 0, 1, 1, 1, 1, 2, 2, 2, 2, 3, 3, 3, 3, 3, 3, 3, 3]
  const ShiftHigh03: seq<nat> := [6, 5, 4, 3, 4, 3, 2, 1, 4, 3, 2, 1, 8, 7, 6, 5, 4, 3, 2, 1]
  const FieldHigh48: seq<nat> := [4, 4, 4, 4, 5, 5, 5, 5, 6, 6, 6, 7, 7, 7, 8]
  const ShiftHigh48: seq<nat> := [6, 5, 4, 3, 4, 3, 2, 1, 3, 2, 1, 3, 2, 1, 2]
  const FieldLow: seq<nat> := [1, 2, 0, 0, 0, 3, 4, 4, 4, 5, 6, 7, 8, 8]
  const ShiftLow: seq<nat> := [0, 0, 2, 1, 0, 0, 2, 1, 0, 0, 0, 0, 1, 0]
  const FieldOf: seq<nat> := FieldHigh03 + FieldHigh48 + FieldLow
  const ShiftOf: seq<nat> := ShiftHigh03 + ShiftHigh48 + ShiftLow

  /** The inverse map: Rows[f][j] is the output position of bit
      Widths[f] - 1 - j of field f (its bits MSB first). */
  const Rows: seq<seq<nat>> := [
    [0, 1, 2, 3, 37, 38, 39],
    [4, 5, 6, 7, 35],
    [8, 9, 10, 11, 36],
    [12, 13, 14, 15, 16, 17, 18, 19, 40],
    [20, 21, 22, 23, 41, 42, 43],
    [24, 25, 26, 27, 44],
    [28, 29, 30, 45],
    [31, 32, 33, 46],
    [34, 47, 48]]

  /** Every position names a field and one of its bits, and Rows maps that
      bit back to the position. */
  ghost predicate PositionOk(k: nat, f: nat, sh: nat) {
    f < 9 && sh < FrameCodec.Widths[f] && FrameCodec.Widths[f] - 1 - sh < |Rows[f]|
    && Rows[f][FrameCodec.Widths[f] - 1 - sh] == k
  }

  lemma PositionsHigh03()
    ensures forall i :: 0 <= i < 20 ==> PositionOk(0 + i, FieldHigh03[i], ShiftHigh03[i])
  {
    assert FrameCodec.Widths == [7, 5, 5, 9, 7, 5, 4, 4, 3];
  }

  lemma PositionsHigh48()
    ensures forall i :: 0 <= i < 15 ==> PositionOk(20 + i, FieldHigh48[i], ShiftHigh48[i])
  {
    assert FrameCodec.Widths == [7, 5, 5, 9, 7, 5, 4, 4, 3];
  }

  lemma PositionsLow()
    ensures forall i :: 0 <= i < 14 ==> PositionOk(35 + i, FieldLow[i], ShiftLow[i])
  {
    assert FrameCodec.Widths == [7, 5, 5, 9, 7, 5, 4, 4, 3];
  }

  lemma PositionsShape()
    ensures |FieldOf| == 49 && |ShiftOf| == 49 && |Rows| == 9
    ensures forall f :: 0 <= f < 9 ==> |Rows[f]| == FrameCodec.Widths[f]
    ensures forall k :: 0 <= k < 49 ==>
              && FieldOf[k] < 9 && ShiftOf[k] < FrameCodec.Widths[FieldOf[k]]
              && Rows[FieldOf[k]][FrameCodec.Widths[FieldOf[k]] - 1 - ShiftOf[k]] == k
  {
    assert FrameCodec.Widths == [7, 5, 5, 9, 7, 5, 4, 4, 3];
    PositionsHigh03();
    PositionsHigh48();
    PositionsLow();
    forall k | 0 <= k < 49
      ensures PositionOk(k, FieldOf[k], ShiftOf[k])
    {
      IndexOfThree(FieldHigh03, FieldHigh48, FieldLow, k);
      IndexOfThree(ShiftHigh03, ShiftHigh48, ShiftLow, k);
      if k < 20 {
        assert PositionOk(0 + k, FieldHigh03[k], ShiftHigh03[k]);
      } else if k < 35 {
        assert PositionOk(20 + (k - 20), FieldHigh48[k - 20], ShiftHigh48[k - 20]);
      } else {
        assert PositionOk(35 + (k - 35), FieldLow[k - 35], ShiftLow[k - 35]);
      }
    }
  }

  /** Rows[f][j] is a position whose table entry names bit
      Widths[f] - 1 - j of field f. */
  ghost predicate RowOk(f: nat, j: nat)
    requires f < 9 && j < |Rows[f]|
  {
    Rows[f][j] < 49 && FieldOf[Rows[f][j]] == f
    && ShiftOf[Rows[f][j]] == FrameCodec.Widths[f] - 1 - j
  }

  lemma RowsOk()
    ensures |Rows| == 9 && forall f :: 0 <= f < 9 ==> |Rows[f]| == FrameCodec.Widths[f]
    ensures forall f, j :: 0 <= f < 9 && 0 <= j < FrameCodec.Widths[f] ==> RowOk(f, j)
  {
    PositionsShape();
    forall f, j | 0 <= f < 9 && 0 <= j < FrameCodec.Widths[f]
      ensures RowOk(f, j)
    {
      var k := Rows[f][j];
      IndexOfThree(FieldHigh03, FieldHigh48, FieldLow, k);
      IndexOfThree(ShiftHigh03, ShiftHigh48, ShiftLow, k);
    }
  }

  /** The 49 bits encode_49bit writes for fields b. */
  function Layout49(b: seq<int>): (r: seq<nat>)
    requires |b| == 9
    ensures |r| == 49 && IsBits(r)
  {
    PositionsShape();
    seq(49, k requires 0 <= k < 49 => Bit(b[FieldOf[k]], ShiftOf[k]))
  }

  /** encode_49bit. Its 49 assignments `outp[k] = (b[f] >> s) & 1` are
      independent, and are stated as one simultaneous assignment over the
      position table. */
  method Encode49Bit(outp: array<nat>, b: seq<int>)
    requires outp.Length == 49 && |b| == 9
    modifies outp
    ensures outp[..] == Layout49(b)
  {
    PositionsShape();
    forall k | 0 <= k < 49 {
      outp[k] := Bit(b[FieldOf[k]], ShiftOf[k]);
    }
  }

  /** The bits at Rows[f], MSB first: field f as stored in o. */
  function RowBits(o: seq<nat>, f: nat): (r: seq<nat>)
    requires |o| == 49 && f < 9
    ensures |r| == FrameCodec.Widths[f]
  {
    RowsOk();
    var w := FrameCodec.Widths[f];
    seq(w, j requires 0 <= j < w => o[Rows[f][j]])
  }

  /** The fields read back from 49 bits. */
  function Unlayout49(o: seq<nat>): (b: seq<nat>)
    requires |o| == 49
    ensures |b| == 9
  {
    seq(9, f requires 0 <= f < 9 => FromBits(RowBits(o, f)))
  }

  /** The bits at Rows[f] of Layout49(b) are the low bits of field f. */
  lemma LayoutRow(b: seq<int>, f: nat)
    requires |b| == 9 && f < 9
    ensures RowBits(Layout49(b), f) == ToBits(b[f], FrameCodec.Widths[f])
  {
    RowsOk();
    var w := FrameCodec.Widths[f];
    forall j | 0 <= j < w
      ensures RowBits(Layout49(b), f)[j] == ToBits(b[f], w)[j]
    {
      assert RowOk(f, j);
    }
  }

  /** Round trip from fields: reading the 49 bits back gives each field's
      low Widths[f] bits. */
  lemma UnlayoutLayout(b: seq<int>)
    requires |b| == 9
    ensures forall f :: 0 <= f < 9 ==> Unlayout49(Layout49(b))[f] == b[f] % Pow2(FrameCodec.Widths[f])
  {
    forall f | 0 <= f < 9
      ensures Unlayout49(Layout49(b))[f] == b[f] % Pow2(FrameCodec.Widths[f])
    {
      LayoutRow(b, f);
      FromToBits(b[f], FrameCodec.Widths[f]);
    }
  }

  /** Round trip from bits: every 49-bit string is the layout of the fields
      read back from it, so encode_49bit reaches every output. */
  lemma LayoutUnlayout(o: seq<nat>)
    requires |o| == 49 && IsBits(o)
    ensures Layout49(Unlayout49(o)) == o
  {
    PositionsShape();
    var u := Unlayout49(o);
    forall k | 0 <= k < 49
      ensures Layout49(u)[k] == o[k]
    {
      var f, sh := FieldOf[k], ShiftOf[k];
      var w := FrameCodec.Widths[f];
      assert PositionOk(k, f, sh);
      var row := RowBits(o, f);
      assert IsBits(row);
      ToFromBits(row);
      assert ToBits(FromBits(row), w)[w - 1 - sh] == Bit(u[f], sh);
    }
  }

  /** Bit sh < w of x depends only on x % 2^w. */
  lemma BitOfLow(x: int, w: nat, sh: nat)
    requires sh < w
    ensures Bit(x, sh) == Bit(x % Pow2(w), sh)
  {
    ToBitsMod(x, w);
    assert ToBits(x, w)[w - 1 - sh] == ToBits(x % Pow2(w), w)[w - 1 - sh];
  }

  /** Fields with the same low bits are laid out alike. */
  lemma SameLowLayout(b: seq<int>, c: seq<int>)
    requires |b| == 9 && |c| == 9 && FrameCodec.SameLowBits(b, c)
    ensures Layout49(b) == Layout49(c)
  {
    PositionsShape();
    forall k | 0 <= k < 49
      ensures Layout49(b)[k] == Layout49(c)[k]
    {
      var f, sh := FieldOf[k], ShiftOf[k];
      var w := FrameCodec.Widths[f];
      assert b[f] % Pow2(w) == c[f] % Pow2(w);
      BitOfLow(b[f], w, sh);
      BitOfLow(c[f], w, sh);
    }
  }

  /** encode_49bit uses only the low Widths[f] bits of each field, and
      sends different low bits to different outputs. */
  lemma LayoutLowBitsOnly(b: seq<int>, c: seq<int>)
    requires |b| == 9 && |c| == 9
    ensures Layout49(b) == Layout49(c) <==> FrameCodec.SameLowBits(b, c)
  {
    if Layout49(b) == Layout49(c) {
      UnlayoutLayout(b);
      UnlayoutLayout(c);
    }
    if FrameCodec.SameLowBits(b, c) {
      SameLowLayout(b, c);
    }
  }
}
