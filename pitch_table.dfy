/**
 * b0_lookup (encoder/mbeenc.cpp): the table that maps a pitch index
 * (ref_pitch >> 5) - 159 to the 7-bit pitch field b[0]. It is kept in
 * chunks of 32 entries so that its properties are checked chunk by chunk.
 */
module PitchTable {
  const B0Chunk0: seq<int> := [0, 0, 0, 1, 1, 2, 2, 2, 3, 3, 4, 4, 4, 5, 5, 5, 6, 6, 7, 7, 7, 8, 8, 8, 9, 9, 9, 10, 10, 11, 11, 11]
  const B0Chunk1: seq<int> := [12, 12, 12, 13, 13, 13, 14, 14, 14, 15, 15, 15, 16, 16, 16, 17, 17, 17, 17, 18, 18, 18, 19, 19, 19, 20, 20, 20, 21, 21, 21, 21]
  const B0Chunk2: seq<int> := [22, 22, 22, 23, 23, 23, 24, 24, 24, 24, 25, 25, 25, 25, 26, 26, 26, 27, 27, 27, 27, 28, 28, 28, 29, 29, 29, 29, 30, 30, 30, 30]
  const B0Chunk3: seq<int> := [31, 31, 31, 31, 31, 32, 32, 32, 32, 33, 33, 33, 33, 34, 34, 34, 34, 35, 35, 35, 35, 36, 36, 36, 36, 37, 37, 37, 37, 38, 38, 38]
  const B0Chunk4: seq<int> := [38, 38, 39, 39, 39, 39, 40, 40, 40, 40, 40, 41, 41, 41, 41, 42, 42, 42, 42, 42, 43, 43, 43, 43, 43, 44, 44, 44, 44, 45, 45, 45]
  const B0Chunk5: seq<int> := [45, 45, 46, 46, 46, 46, 46, 47, 47, 47, 47, 47, 48, 48, 48, 48, 48, 49, 49, 49, 49, 49, 49, 50, 50, 50, 50, 50, 51, 51, 51, 51]
  const B0Chunk6: seq<int> := [51, 52, 52, 52, 52, 52, 52, 53, 53, 53, 53, 53, 54, 54, 54, 54, 54, 54, 55, 55, 55, 55, 55, 56, 56, 56, 56, 56, 56, 57, 57, 57]
  const B0Chunk7: seq<int> := [57, 57, 57, 58, 58, 58, 58, 58, 58, 59, 59, 59, 59, 59, 59, 60, 60, 60, 60, 60, 60, 61, 61, 61, 61, 61, 61, 62, 62, 62, 62, 62]
  const B0Chunk8: seq<int> := [62, 63, 63, 63, 63, 63, 63, 63, 64, 64, 64, 64, 64, 64, 65, 65, 65, 65, 65, 65, 65, 66, 66, 66, 66, 66, 66, 67, 67, 67, 67, 67]
  const B0Chunk9: seq<int> := [67, 67, 68, 68, 68, 68, 68, 68, 68, 69, 69, 69, 69, 69, 69, 69, 70, 70, 70, 70, 70, 70, 70, 71, 71, 71, 71, 71, 71, 71, 72, 72]
  const B0Chunk10: seq<int> := [72, 72, 72, 72, 72, 73, 73, 73, 73, 73, 73, 73, 73, 74, 74, 74, 74, 74, 74, 74, 75, 75, 75, 75, 75, 75, 75, 75, 76, 76, 76, 76]
  const B0Chunk11: seq<int> := [76, 76, 76, 76, 77, 77, 77, 77, 77, 77, 77, 77, 77, 78, 78, 78, 78, 78, 78, 78, 78, 79, 79, 79, 79, 79, 79, 79, 79, 80, 80, 80]
  const B0Chunk12: seq<int> := [80, 80, 80, 80, 80, 81, 81, 81, 81, 81, 81, 81, 81, 81, 82, 82, 82, 82, 82, 82, 82, 82, 83, 83, 83, 83, 83, 83, 83, 83, 83, 84]
  const B0Chunk13: seq<int> := [84, 84, 84, 84, 84, 84, 84, 84, 85, 85, 85, 85, 85, 85, 85, 85, 85, 86, 86, 86, 86, 86, 86, 86, 86, 86, 87, 87, 87, 87, 87, 87]
  const B0Chunk14: seq<int> := [87, 87, 87, 88, 88, 88, 88, 88, 88, 88, 88, 88, 89, 89, 89, 89, 89, 89, 89, 89, 89, 89, 90, 90, 90, 90, 90, 90, 90, 90, 90, 90]
  const B0Chunk15: seq<int> := [91, 91, 91, 91, 91, 91, 91, 91, 91, 92, 92, 92, 92, 92, 92, 92, 92, 92, 92, 93, 93, 93, 93, 93, 93, 93, 93, 93, 93, 94, 94, 94]
  const B0Chunk16: seq<int> := [94, 94, 94, 94, 94, 94, 94, 95, 95, 95, 95, 95, 95, 95, 95, 95, 95, 95, 96, 96, 96, 96, 96, 96, 96, 96, 96, 96, 96, 97, 97, 97]
  const B0Chunk17: seq<int> := [97, 97, 97, 97, 97, 97, 97, 98, 98, 98, 98, 98, 98, 98, 98, 98, 98, 98, 99, 99, 99, 99, 99, 99, 99, 99, 99, 99, 99, 100, 100, 100]
  const B0Chunk18: seq<int> := [100, 100, 100, 100, 100, 100, 100, 100, 101, 101, 101, 101, 101, 101, 101, 101, 101, 101, 101, 101, 102, 102, 102, 102, 102, 102, 102, 102, 102, 102, 102, 103]
  const B0Chunk19: seq<int> := [103, 103, 103, 103, 103, 103, 103, 103, 103, 103, 103, 104, 104, 104, 104, 104, 104, 104, 104, 104, 104, 104, 104, 105, 105, 105, 105, 105, 105, 105, 105, 105]
  const B0Chunk20: seq<int> := [105, 105, 105, 106, 106, 106, 106, 106, 106, 106, 106, 106, 106, 106, 106, 106, 107, 107, 107, 107, 107, 107, 107, 107, 107, 107, 107, 107, 108, 108, 108, 108]
  const B0Chunk21: seq<int> := [108, 108, 108, 108, 108, 108, 108, 108, 108, 109, 109, 109, 109, 109, 109, 109, 109, 109, 109, 109, 109, 109, 110, 110, 110, 110, 110, 110, 110, 110, 110, 110]
  const B0Chunk22: seq<int> := [110, 110, 110, 111, 111, 111, 111, 111, 111, 111, 111, 111, 111, 111, 111, 111, 111, 112, 112, 112, 112, 112, 112, 112, 112, 112, 112, 112, 112, 112, 113, 113]
  const B0Chunk23: seq<int> := [113, 113, 113, 113, 113, 113, 113, 113, 113, 113, 113, 113, 114, 114, 114, 114, 114, 114, 114, 114, 114, 114, 114, 114, 114, 114, 115, 115, 115, 115, 115, 115]
  const B0Chunk24: seq<int> := [115, 115, 115, 115, 115, 115, 115, 115, 116, 116, 116, 116, 116, 116, 116, 116, 116, 116, 116, 116, 116, 116, 117, 117, 117, 117, 117, 117, 117, 117, 117, 117]
  const B0Chunk25: seq<int> := [117, 117, 117, 117, 117, 118, 118, 118, 118, 118, 118, 118, 118, 118, 118, 118, 118, 118, 118, 118, 119, 119, 119, 119, 119, 119, 119, 119, 119, 119, 119, 119]
  const B0Chunk26: seq<int> := [119, 119, 119, 120, 120, 120, 120, 120, 120, 120, 120, 120, 120, 120, 120, 120, 120, 120, 121, 121, 121, 121, 121, 121, 121, 121, 121, 121, 121, 121, 121, 121]
  const B0Chunk27: seq<int> := [121, 121, 122, 122, 122, 122, 122, 122, 122, 122, 122, 122, 122, 122, 122, 122, 122, 123, 123, 123, 123, 123, 123, 123, 123, 123, 123, 123, 123, 123, 123, 123]
  const B0Chunk28: seq<int> := [123, 124]

  /** b0_lookup, in source order. */
  const B0Lookup: seq<int> := B0Part0 + B0Part1 + B0Part2 + B0Part3 + B0Part4

  const B0Part0: seq<int> := B0Chunk0 + B0Chunk1 + B0Chunk2 + B0Chunk3 + B0Chunk4 + B0Chunk5
  const B0Part1: seq<int> := B0Chunk6 + B0Chunk7 + B0Chunk8 + B0Chunk9 + B0Chunk10 + B0Chunk11
  const B0Part2: seq<int> := B0Chunk12 + B0Chunk13 + B0Chunk14 + B0Chunk15 + B0Chunk16 + B0Chunk17
  const B0Part3: seq<int> := B0Chunk18 + B0Chunk19 + B0Chunk20 + B0Chunk21 + B0Chunk22 + B0Chunk23
  const B0Part4: seq<int> := B0Chunk24 + B0Chunk25 + B0Chunk26 + B0Chunk27 + B0Chunk28

  /** Consecutive entries are equal or one apart. */
  ghost predicate StepsByOne(s: seq<int>) {
    forall i :: 0 <= i < |s| - 1 ==> s[i] <= s[i + 1] <= s[i] + 1
  }

  /** Every entry is a pitch field value 0 .. 124. */
  ghost predicate InRange(s: seq<int>) {
    forall i :: 0 <= i < |s| ==> 0 <= s[i] <= 124
  }

  ghost predicate Good(s: seq<int>) {
    |s| > 0 && StepsByOne(s) && InRange(s)
  }

  lemma Append(a: seq<int>, b: seq<int>)
    requires Good(a) && Good(b) && a[|a| - 1] <= b[0] <= a[|a| - 1] + 1
    ensures Good(a + b) && (a + b)[|a + b| - 1] == b[|b| - 1]
  {
    forall i | 0 <= i < |a + b| - 1
      ensures (a + b)[i] <= (a + b)[i + 1] <= (a + b)[i] + 1
    {
      if i == |a| - 1 {
      } else if i < |a| {
      } else {
      }
    }
  }

  lemma GoodChunk0()
    ensures forall i :: 0 <= i < |B0Chunk0| - 1 ==> B0Chunk0[i] <= B0Chunk0[i + 1] <= B0Chunk0[i] + 1
    ensures forall i :: 0 <= i < |B0Chunk0| ==> 0 <= B0Chunk0[i] <= 124
  {
  }

  lemma GoodChunk1()
    ensures forall i :: 0 <= i < |B0Chunk1| - 1 ==> B0Chunk1[i] <= B0Chunk1[i + 1] <= B0Chunk1[i] + 1
    ensures forall i :: 0 <= i < |B0Chunk1| ==> 0 <= B0Chunk1[i] <= 124
  {
  }

  lemma GoodChunk2()
    ensures forall i :: 0 <= i < |B0Chunk2| - 1 ==> B0Chunk2[i] <= B0Chunk2[i + 1] <= B0Chunk2[i] + 1
    ensures forall i :: 0 <= i < |B0Chunk2| ==> 0 <= B0Chunk2[i] <= 124
  {
  }

  lemma GoodChunk3()
    ensures forall i :: 0 <= i < |B0Chunk3| - 1 ==> B0Chunk3[i] <= B0Chunk3[i + 1] <= B0Chunk3[i] + 1
    ensures forall i :: 0 <= i < |B0Chunk3| ==> 0 <= B0Chunk3[i] <= 124
  {
  }

  lemma GoodChunk4()
    ensures forall i :: 0 <= i < |B0Chunk4| - 1 ==> B0Chunk4[i] <= B0Chunk4[i + 1] <= B0Chunk4[i] + 1
    ensures forall i :: 0 <= i < |B0Chunk4| ==> 0 <= B0Chunk4[i] <= 124
  {
  }

  lemma GoodChunk5()
    ensures forall i :: 0 <= i < |B0Chunk5| - 1 ==> B0Chunk5[i] <= B0Chunk5[i + 1] <= B0Chunk5[i] + 1
    ensures forall i :: 0 <= i < |B0Chunk5| ==> 0 <= B0Chunk5[i] <= 124
  {
  }

  lemma GoodChunk6()
    ensures forall i :: 0 <= i < |B0Chunk6| - 1 ==> B0Chunk6[i] <= B0Chunk6[i + 1] <= B0Chunk6[i] + 1
    ensures forall i :: 0 <= i < |B0Chunk6| ==> 0 <= B0Chunk6[i] <= 124
  {
  }

  lemma GoodChunk7()
    ensures forall i :: 0 <= i < |B0Chunk7| - 1 ==> B0Chunk7[i] <= B0Chunk7[i + 1] <= B0Chunk7[i] + 1
    ensures forall i :: 0 <= i < |B0Chunk7| ==> 0 <= B0Chunk7[i] <= 124
  {
  }

  lemma GoodChunk8()
    ensures forall i :: 0 <= i < |B0Chunk8| - 1 ==> B0Chunk8[i] <= B0Chunk8[i + 1] <= B0Chunk8[i] + 1
    ensures forall i :: 0 <= i < |B0Chunk8| ==> 0 <= B0Chunk8[i] <= 124
  {
  }

  lemma GoodChunk9()
    ensures forall i :: 0 <= i < |B0Chunk9| - 1 ==> B0Chunk9[i] <= B0Chunk9[i + 1] <= B0Chunk9[i] + 1
    ensures forall i :: 0 <= i < |B0Chunk9| ==> 0 <= B0Chunk9[i] <= 124
  {
  }

  lemma GoodChunk10()
    ensures forall i :: 0 <= i < |B0Chunk10| - 1 ==> B0Chunk10[i] <= B0Chunk10[i + 1] <= B0Chunk10[i] + 1
    ensures forall i :: 0 <= i < |B0Chunk10| ==> 0 <= B0Chunk10[i] <= 124
  {
  }

  lemma GoodChunk11()
    ensures forall i :: 0 <= i < |B0Chunk11| - 1 ==> B0Chunk11[i] <= B0Chunk11[i + 1] <= B0Chunk11[i] + 1
    ensures forall i :: 0 <= i < |B0Chunk11| ==> 0 <= B0Chunk11[i] <= 124
  {
  }

  lemma GoodChunk12()
    ensures forall i :: 0 <= i < |B0Chunk12| - 1 ==> B0Chunk12[i] <= B0Chunk12[i + 1] <= B0Chunk12[i] + 1
    ensures forall i :: 0 <= i < |B0Chunk12| ==> 0 <= B0Chunk12[i] <= 124
  {
  }

  lemma GoodChunk13()
    ensures forall i :: 0 <= i < |B0Chunk13| - 1 ==> B0Chunk13[i] <= B0Chunk13[i + 1] <= B0Chunk13[i] + 1
    ensures forall i :: 0 <= i < |B0Chunk13| ==> 0 <= B0Chunk13[i] <= 124
  {
  }

  lemma GoodChunk14()
    ensures forall i :: 0 <= i < |B0Chunk14| - 1 ==> B0Chunk14[i] <= B0Chunk14[i + 1] <= B0Chunk14[i] + 1
    ensures forall i :: 0 <= i < |B0Chunk14| ==> 0 <= B0Chunk14[i] <= 124
  {
  }

  lemma GoodChunk15()
    ensures forall i :: 0 <= i < |B0Chunk15| - 1 ==> B0Chunk15[i] <= B0Chunk15[i + 1] <= B0Chunk15[i] + 1
    ensures forall i :: 0 <= i < |B0Chunk15| ==> 0 <= B0Chunk15[i] <= 124
  {
  }

  lemma GoodChunk16()
    ensures forall i :: 0 <= i < |B0Chunk16| - 1 ==> B0Chunk16[i] <= B0Chunk16[i + 1] <= B0Chunk16[i] + 1
    ensures forall i :: 0 <= i < |B0Chunk16| ==> 0 <= B0Chunk16[i] <= 124
  {
  }

  lemma GoodChunk17()
    ensures forall i :: 0 <= i < |B0Chunk17| - 1 ==> B0Chunk17[i] <= B0Chunk17[i + 1] <= B0Chunk17[i] + 1
    ensures forall i :: 0 <= i < |B0Chunk17| ==> 0 <= B0Chunk17[i] <= 124
  {
  }

  lemma GoodChunk18()
    ensures forall i :: 0 <= i < |B0Chunk18| - 1 ==> B0Chunk18[i] <= B0Chunk18[i + 1] <= B0Chunk18[i] + 1
    ensures forall i :: 0 <= i < |B0Chunk18| ==> 0 <= B0Chunk18[i] <= 124
  {
  }

  lemma GoodChunk19()
    ensures forall i :: 0 <= i < |B0Chunk19| - 1 ==> B0Chunk19[i] <= B0Chunk19[i + 1] <= B0Chunk19[i] + 1
    ensures forall i :: 0 <= i < |B0Chunk19| ==> 0 <= B0Chunk19[i] <= 124
  {
  }

  lemma GoodChunk20()
    ensures forall i :: 0 <= i < |B0Chunk20| - 1 ==> B0Chunk20[i] <= B0Chunk20[i + 1] <= B0Chunk20[i] + 1
    ensures forall i :: 0 <= i < |B0Chunk20| ==> 0 <= B0Chunk20[i] <= 124
  {
  }

  lemma GoodChunk21()
    ensures forall i :: 0 <= i < |B0Chunk21| - 1 ==> B0Chunk21[i] <= B0Chunk21[i + 1] <= B0Chunk21[i] + 1
    ensures forall i :: 0 <= i < |B0Chunk21| ==> 0 <= B0Chunk21[i] <= 124
  {
  }

  lemma GoodChunk22()
    ensures forall i :: 0 <= i < |B0Chunk22| - 1 ==> B0Chunk22[i] <= B0Chunk22[i + 1] <= B0Chunk22[i] + 1
    ensures forall i :: 0 <= i < |B0Chunk22| ==> 0 <= B0Chunk22[i] <= 124
  {
  }

  lemma GoodChunk23()
    ensures forall i :: 0 <= i < |B0Chunk23| - 1 ==> B0Chunk23[i] <= B0Chunk23[i + 1] <= B0Chunk23[i] + 1
    ensures forall i :: 0 <= i < |B0Chunk23| ==> 0 <= B0Chunk23[i] <= 124
  {
  }

  lemma GoodChunk24()
    ensures forall i :: 0 <= i < |B0Chunk24| - 1 ==> B0Chunk24[i] <= B0Chunk24[i + 1] <= B0Chunk24[i] + 1
    ensures forall i :: 0 <= i < |B0Chunk24| ==> 0 <= B0Chunk24[i] <= 124
  {
  }

  lemma GoodChunk25()
    ensures forall i :: 0 <= i < |B0Chunk25| - 1 ==> B0Chunk25[i] <= B0Chunk25[i + 1] <= B0Chunk25[i] + 1
    ensures forall i :: 0 <= i < |B0Chunk25| ==> 0 <= B0Chunk25[i] <= 124
  {
  }

  lemma GoodChunk26()
    ensures forall i :: 0 <= i < |B0Chunk26| - 1 ==> B0Chunk26[i] <= B0Chunk26[i + 1] <= B0Chunk26[i] + 1
    ensures forall i :: 0 <= i < |B0Chunk26| ==> 0 <= B0Chunk26[i] <= 124
  {
  }

  lemma GoodChunk27()
    ensures forall i :: 0 <= i < |B0Chunk27| - 1 ==> B0Chunk27[i] <= B0Chunk27[i + 1] <= B0Chunk27[i] + 1
    ensures forall i :: 0 <= i < |B0Chunk27| ==> 0 <= B0Chunk27[i] <= 124
  {
  }

  lemma GoodChunk28()
    ensures forall i :: 0 <= i < |B0Chunk28| - 1 ==> B0Chunk28[i] <= B0Chunk28[i + 1] <= B0Chunk28[i] + 1
    ensures forall i :: 0 <= i < |B0Chunk28| ==> 0 <= B0Chunk28[i] <= 124
  {
  }

  lemma GoodPart0()
    ensures Good(B0Part0)
  {
    ghost var acc := B0Chunk0;
    GoodChunk0();
    GoodChunk1();
    Append(acc, B0Chunk1);
    acc := acc + B0Chunk1;
    GoodChunk2();
    Append(acc, B0Chunk2);
    acc := acc + B0Chunk2;
    GoodChunk3();
    Append(acc, B0Chunk3);
    acc := acc + B0Chunk3;
    GoodChunk4();
    Append(acc, B0Chunk4);
    acc := acc + B0Chunk4;
    GoodChunk5();
    Append(acc, B0Chunk5);
    acc := acc + B0Chunk5;
    assert acc == B0Part0;
  }

  lemma GoodPart1()
    ensures Good(B0Part1)
  {
    ghost var acc := B0Chunk6;
    GoodChunk6();
    GoodChunk7();
    Append(acc, B0Chunk7);
    acc := acc + B0Chunk7;
    GoodChunk8();
    Append(acc, B0Chunk8);
    acc := acc + B0Chunk8;
    GoodChunk9();
    Append(acc, B0Chunk9);
    acc := acc + B0Chunk9;
    GoodChunk10();
    Append(acc, B0Chunk10);
    acc := acc + B0Chunk10;
    GoodChunk11();
    Append(acc, B0Chunk11);
    acc := acc + B0Chunk11;
    assert acc == B0Part1;
  }

  lemma GoodPart2()
    ensures Good(B0Part2)
  {
    ghost var acc := B0Chunk12;
    GoodChunk12();
    GoodChunk13();
    Append(acc, B0Chunk13);
    acc := acc + B0Chunk13;
    GoodChunk14();
    Append(acc, B0Chunk14);
    acc := acc + B0Chunk14;
    GoodChunk15();
    Append(acc, B0Chunk15);
    acc := acc + B0Chunk15;
    GoodChunk16();
    Append(acc, B0Chunk16);
    acc := acc + B0Chunk16;
    GoodChunk17();
    Append(acc, B0Chunk17);
    acc := acc + B0Chunk17;
    assert acc == B0Part2;
  }

  lemma GoodPart3()
    ensures Good(B0Part3)
  {
    ghost var acc := B0Chunk18;
    GoodChunk18();
    GoodChunk19();
    Append(acc, B0Chunk19);
    acc := acc + B0Chunk19;
    GoodChunk20();
    Append(acc, B0Chunk20);
    acc := acc + B0Chunk20;
    GoodChunk21();
    Append(acc, B0Chunk21);
    acc := acc + B0Chunk21;
    GoodChunk22();
    Append(acc, B0Chunk22);
    acc := acc + B0Chunk22;
    GoodChunk23();
    Append(acc, B0Chunk23);
    acc := acc + B0Chunk23;
    assert acc == B0Part3;
  }

  lemma GoodPart4()
    ensures Good(B0Part4)
  {
    ghost var acc := B0Chunk24;
    GoodChunk24();
    GoodChunk25();
    Append(acc, B0Chunk25);
    acc := acc + B0Chunk25;
    GoodChunk26();
    Append(acc, B0Chunk26);
    acc := acc + B0Chunk26;
    GoodChunk27();
    Append(acc, B0Chunk27);
    acc := acc + B0Chunk27;
    GoodChunk28();
    Append(acc, B0Chunk28);
    acc := acc + B0Chunk28;
    assert acc == B0Part4;
  }

  /** The table has 898 entries, starts at 0, ends at 124 and climbs by
      steps of 0 or 1; so every entry fits the 7 bits of field b[0]. */
  lemma B0LookupFacts()
    ensures |B0Lookup| == 898 && Good(B0Lookup)
    ensures B0Lookup[0] == 0 && B0Lookup[897] == 124
  {
    ghost var acc := B0Part0;
    GoodPart0();
    GoodPart1();
    Append(acc, B0Part1);
    acc := acc + B0Part1;
    GoodPart2();
    Append(acc, B0Part2);
    acc := acc + B0Part2;
    GoodPart3();
    Append(acc, B0Part3);
    acc := acc + B0Part3;
    GoodPart4();
    Append(acc, B0Part4);
    acc := acc + B0Part4;
  }
}
