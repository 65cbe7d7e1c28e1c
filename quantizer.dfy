/**
 * The discrete skeleton of encode_ambe (encoder/mbeenc.cpp): how the nine
 * parameter fields b[0..8] are chosen. The floating-point analysis that
 * produces the candidate distances is not modelled; each vector quantiser
 * search is given its list of distances, one per codebook entry, and the
 * model states which entry the search picks. The pitch field comes from
 * b0_lookup and a walk over pitch indices until the harmonic count of the
 * chosen entry agrees with the analysis.
 */
module AmbeQuantizer {
  import opened Bits
  import opened PitchTable
  import FrameCodec

  /** Number of entries of b0_lookup (b0_lmax). */
  const PitchIndices := 898

  /** Codebook sizes of the searches for b[1] .. b[8]: voicing (17), gain
      (32), PRBA24 (512), PRBA58 (128) and the four higher-order blocks
      (32, 16, 16, 8). */
  const SearchSizes: seq<nat> := [17, 32, 512, 128, 32, 16, 16, 8]

  /** The fields written when the pitch cannot be encoded. */
  const FallbackFields: seq<int> := [40, 0, 0, 0, 0, 0, 0, 0, 0]

  // ---------------------------------------------------------------------
  // Codebook searches
  // ---------------------------------------------------------------------

  /** Entry i has the smallest distance, and no earlier entry ties with it:
      the rule `i == 0 || err < error` of every search keeps the first of
      several equal minima. */
  ghost predicate IsFirstMin(costs: seq<real>, i: int) {
    && 0 <= i < |costs|
    && (forall j :: 0 <= j < |costs| ==> costs[i] <= costs[j])
    && (forall j :: 0 <= j < i ==> costs[i] < costs[j])
  }

  /** A codebook search: entry 0 is taken first, and a later entry replaces
      the current choice only when its distance is strictly smaller. */
  method FirstMin(costs: seq<real>) returns (index: nat)
    requires |costs| >= 1
    ensures IsFirstMin(costs, index)
  {
    var error: real := 0.0;
    index := 0;
    for i := 0 to |costs|
      invariant i == 0 ==> index == 0
      invariant i > 0 ==> IsFirstMin(costs[..i], index) && error == costs[index]
    {
      if i == 0 || costs[i] < error {
        error := costs[i];
        index := i;
      }
    }
    assert costs[..|costs|] == costs;
  }

  /** The reference definition of a search's choice: the first minimum of
      all but the last distance, replaced by the last entry only when that
      one is strictly smaller. */
  function FirstMinIndex(costs: seq<real>): (i: nat)
    requires |costs| >= 1
    ensures i < |costs|
  {
    if |costs| == 1 then 0
    else
      var k := FirstMinIndex(costs[..|costs| - 1]);
      if costs[|costs| - 1] < costs[k] then |costs| - 1 else k
  }

  lemma {:induction false} FirstMinIndexIsFirstMin(costs: seq<real>)
    requires |costs| >= 1
    ensures IsFirstMin(costs, FirstMinIndex(costs))
  {
    if |costs| > 1 {
      FirstMinIndexIsFirstMin(costs[..|costs| - 1]);
    }
  }

  /** The entry a search picks is determined by the distances alone: it is
      the entry of the reference definition, and no other. */
  lemma FirstMinCharacterized(costs: seq<real>, i: int)
    requires |costs| >= 1
    ensures IsFirstMin(costs, i) <==> i == FirstMinIndex(costs)
  {
    var k := FirstMinIndex(costs);
    FirstMinIndexIsFirstMin(costs);
    if IsFirstMin(costs, i) {
      assert costs[i] <= costs[k] && costs[k] <= costs[i];
    }
  }

  // ---------------------------------------------------------------------
  // Pitch
  // ---------------------------------------------------------------------

  /** (ref_pitch >> 5) - 159: the arithmetic shift of a signed value is a
      division by 32 rounded down. */
  function StartIndex(refPitch: int): (i: int)
    ensures 32 * (i + 159) <= refPitch < 32 * (i + 160)
  {
    refPitch / 32 - 159
  }

  /** The property of AmbeLtable the pitch walk relies on (the table itself
      is not part of this model): it covers the pitch fields 0 .. 124, and
      the harmonic count grows by 0 or 1 from one pitch field to the next. */
  ghost predicate HarmonicSteps(lTable: seq<int>) {
    |lTable| >= 125 && forall i :: 0 <= i < 124 ==> lTable[i] <= lTable[i + 1] <= lTable[i] + 1
  }

  /** The tables the pitch walk reads: b0_lookup (which the walk is given
      as a parameter, so that its proofs need only these properties of it)
      and AmbeLtable. */
  ghost predicate PitchTables(lookup: seq<int>, lTable: seq<int>) {
    |lookup| == PitchIndices && Good(lookup) && HarmonicSteps(lTable)
  }

  /** The harmonic count of pitch index i: AmbeLtable[b0_lookup[i]]. */
  function Harmonics(lookup: seq<int>, lTable: seq<int>, i: int): int
    requires PitchTables(lookup, lTable) && 0 <= i < PitchIndices
  {
    lTable[lookup[i]]
  }

  /** One pitch index further the harmonic count is equal or one larger. */
  lemma HarmonicsStep(lookup: seq<int>, lTable: seq<int>, i: int)
    requires PitchTables(lookup, lTable) && 0 <= i < PitchIndices - 1
    ensures Harmonics(lookup, lTable, i) <= Harmonics(lookup, lTable, i + 1) <= Harmonics(lookup, lTable, i) + 1
  {
    var x, y := lookup[i], lookup[i + 1];
    if y == x + 1 {
      assert lTable[x] <= lTable[x + 1] <= lTable[x] + 1;
    }
  }

  /** The harmonic count never decreases along the pitch indices. */
  lemma {:induction false} HarmonicsMonotone(lookup: seq<int>, lTable: seq<int>, i: int, j: int)
    requires PitchTables(lookup, lTable) && 0 <= i <= j < PitchIndices
    ensures Harmonics(lookup, lTable, i) <= Harmonics(lookup, lTable, j)
    decreases j - i
  {
    if i < j {
      HarmonicsMonotone(lookup, lTable, i, j - 1);
      HarmonicsStep(lookup, lTable, j - 1);
    }
  }

  /** No pitch index gives the harmonic count n. */
  ghost predicate NoPitchFor(lookup: seq<int>, lTable: seq<int>, n: int)
    requires PitchTables(lookup, lTable)
  {
    forall k :: 0 <= k < PitchIndices ==> Harmonics(lookup, lTable, k) != n
  }

  /** No pitch index strictly between s and e gives the harmonic count n. */
  ghost predicate NoneBetween(lookup: seq<int>, lTable: seq<int>, n: int, s: int, e: int)
    requires PitchTables(lookup, lTable)
  {
    forall k :: 0 <= k < PitchIndices && (s < k < e || e < k < s) ==> Harmonics(lookup, lTable, k) != n
  }

  /** The pitch step of encode_ambe. It returns whether the pitch could be
      encoded. If so, b[0] is b0_lookup at the pitch index nearest to the
      start index, in the direction of the walk, whose harmonic count is
      numHarms; otherwise b holds the fallback fields, which happens exactly
      when the start index is outside b0_lookup or no pitch index at all has
      numHarms harmonics. */
  method PitchStep(refPitch: int, numHarms: int, lookup: seq<int>, lTable: seq<int>, b: array<int>)
    returns (found: bool, b0i: int)
    requires b.Length == 9 && PitchTables(lookup, lTable)
    modifies b
    ensures found ==> 0 <= b0i < PitchIndices && Harmonics(lookup, lTable, b0i) == numHarms
    ensures found ==> NoneBetween(lookup, lTable, numHarms, StartIndex(refPitch), b0i)
    ensures found ==> b[0] == lookup[b0i] && b[1..] == old(b[1..])
    ensures !found ==> b[..] == FallbackFields
    ensures !found <==> !(0 <= StartIndex(refPitch) < PitchIndices) || NoPitchFor(lookup, lTable, numHarms)
  {
    b0i := refPitch / 32 - 159;
    if b0i < 0 || b0i >= PitchIndices {
      Fallback(b);
      return false, b0i;
    }
    ghost var start := b0i;
    b[0] := lookup[b0i];
    var l := lTable[b[0]];
    ghost var up := l < numHarms;
    while l != numHarms
      invariant 0 <= b0i < PitchIndices && b[0] == lookup[b0i] && b[1..] == old(b[1..])
      invariant l == Harmonics(lookup, lTable, b0i) && Walked(lookup, lTable, numHarms, start, b0i, up)
      decreases if up then PitchIndices - b0i else b0i + 1
    {
      WalkStep(lookup, lTable, numHarms, start, b0i, up);
      if l < numHarms {
        b0i := b0i + 1;
      } else {
        b0i := b0i - 1;
      }
      if b0i < 0 || b0i >= PitchIndices {
        Fallback(b);
        return false, b0i;
      }
      b[0] := lookup[b0i];
      l := lTable[b[0]];
    }
    found := true;
    assert Harmonics(lookup, lTable, b0i) == numHarms;
  }

  /** The state of the pitch walk from index start, upwards when up: every
      index passed so far has too few harmonics (upwards) or too many
      (downwards), and the current one does not overshoot. */
  ghost predicate Walked(lookup: seq<int>, lTable: seq<int>, n: int, start: int, i: int, up: bool)
    requires PitchTables(lookup, lTable)
  {
    && 0 <= start < PitchIndices && 0 <= i < PitchIndices
    && (up ==> start <= i && Harmonics(lookup, lTable, i) <= n)
    && (up ==> forall k :: start <= k < i ==> Harmonics(lookup, lTable, k) < n)
    && (!up ==> i <= start && Harmonics(lookup, lTable, i) >= n)
    && (!up ==> forall k :: i < k <= start ==> Harmonics(lookup, lTable, k) > n)
  }

  /** One step of the walk: it keeps its direction, and either stays inside
      b0_lookup or leaves it having missed every index. */
  lemma WalkStep(lookup: seq<int>, lTable: seq<int>, n: int, start: int, i: int, up: bool)
    requires PitchTables(lookup, lTable) && Walked(lookup, lTable, n, start, i, up) && Harmonics(lookup, lTable, i) != n
    ensures up <==> Harmonics(lookup, lTable, i) < n
    ensures up && i + 1 < PitchIndices ==> Walked(lookup, lTable, n, start, i + 1, up)
    ensures !up && i > 0 ==> Walked(lookup, lTable, n, start, i - 1, up)
    ensures (up && i + 1 == PitchIndices) || (!up && i == 0) ==> NoPitchFor(lookup, lTable, n)
  {
    if up && i + 1 < PitchIndices {
      HarmonicsStep(lookup, lTable, i);
    } else if !up && i > 0 {
      HarmonicsStep(lookup, lTable, i - 1);
    } else {
      MissedEverywhere(lookup, lTable, n, start, if up then PitchIndices else -1, up);
    }
  }

  /** The walk left b0_lookup: by monotony no pitch index matches. */
  lemma MissedEverywhere(lookup: seq<int>, lTable: seq<int>, n: int, start: int, b0i: int, up: bool)
    requires PitchTables(lookup, lTable) && 0 <= start < PitchIndices
    requires up ==> b0i == PitchIndices && forall k :: start <= k < b0i ==> Harmonics(lookup, lTable, k) < n
    requires !up ==> b0i == -1 && forall k :: b0i < k <= start ==> Harmonics(lookup, lTable, k) > n
    ensures NoPitchFor(lookup, lTable, n)
  {
    forall k | 0 <= k < PitchIndices
      ensures Harmonics(lookup, lTable, k) != n
    {
      if up && k < start {
        HarmonicsMonotone(lookup, lTable, k, start);
      } else if !up && k > start {
        HarmonicsMonotone(lookup, lTable, start, k);
      }
    }
  }

  /** The fallback "silence-ish" fields: b[0] = 40, all others 0. */
  method Fallback(b: array<int>)
    requires b.Length == 9
    modifies b
    ensures b[..] == FallbackFields
  {
    b[0], b[1], b[2] := 40, 0, 0;
    for i := 3 to 9
      invariant b[..3] == FallbackFields[..3]
      invariant forall k :: 3 <= k < i ==> b[k] == 0
    {
      b[i] := 0;
    }
  }

  // ---------------------------------------------------------------------
  // The whole quantiser
  // ---------------------------------------------------------------------

  /** The distance lists a frame's analysis yields, one per search, each
      as long as its codebook. */
  ghost predicate Shaped(costs: seq<seq<real>>) {
    |costs| == 8 && forall s :: 0 <= s < 8 ==> |costs[s]| == SearchSizes[s]
  }

  /** Field 5 + h (h = 0 .. 3) is 0 when block h of the spectral
      partition has at most two coefficients, and the first minimum of its
      higher-order codebook otherwise. */
  ghost predicate HigherOrderOk(costs: seq<seq<real>>, bands: seq<int>, fields: seq<int>, h: int)
    requires Shaped(costs) && |bands| == 4 && |fields| == 9 && 0 <= h < 4
  {
    if bands[h] <= 2 then fields[5 + h] == 0 else IsFirstMin(costs[4 + h], fields[5 + h])
  }

  /** The fields b[1..8] that encode_ambe's searches produce: the first
      minima of the voicing, gain, PRBA24 and PRBA58 searches, then the four
      higher-order fields. */
  ghost predicate Quantized(costs: seq<seq<real>>, bands: seq<int>, fields: seq<int>)
    requires Shaped(costs) && |bands| == 4 && |fields| == 9
  {
    && IsFirstMin(costs[0], fields[1]) && IsFirstMin(costs[1], fields[2])
    && IsFirstMin(costs[2], fields[3]) && IsFirstMin(costs[3], fields[4])
    && HigherOrderOk(costs, bands, fields, 0) && HigherOrderOk(costs, bands, fields, 1)
    && HigherOrderOk(costs, bands, fields, 2) && HigherOrderOk(costs, bands, fields, 3)
  }

  /** A higher-order field: 0 for a block of at most two coefficients,
      else the first minimum of its codebook. */
  method HigherOrder(costs: seq<real>, band: int) returns (index: nat)
    requires |costs| >= 1
    ensures band <= 2 ==> index == 0
    ensures band > 2 ==> IsFirstMin(costs, index)
  {
    if band <= 2 {
      index := 0;
    } else {
      index := FirstMin(costs);
    }
  }

  /** The searches of encode_ambe after the pitch: b[1] .. b[8] are chosen
      and b[0] is kept. */
  method Searches(costs: seq<seq<real>>, bands: seq<int>, b: array<int>)
    requires b.Length == 9 && |bands| == 4 && Shaped(costs)
    modifies b
    ensures b[0] == old(b[0]) && Quantized(costs, bands, b[..])
  {
    var b0 := b[0];
    var i1 := FirstMin(costs[0]);
    var i2 := FirstMin(costs[1]);
    var i3 := FirstMin(costs[2]);
    var i4 := FirstMin(costs[3]);
    var h5 := HigherOrder(costs[4], bands[0]);
    var h6 := HigherOrder(costs[5], bands[1]);
    var h7 := HigherOrder(costs[6], bands[2]);
    var h8 := HigherOrder(costs[7], bands[3]);
    ghost var fields := [b0, i1, i2, i3, i4, h5, h6, h7, h8];
    assert Quantized(costs, bands, fields);
    b[1], b[2], b[3], b[4] := i1, i2, i3, i4;
    b[5], b[6], b[7], b[8] := h5, h6, h7, h8;
    assert b[..] == fields;
  }

  /** b0_lookup has the properties the walk needs. */
  lemma LookupTables(lTable: seq<int>)
    requires HarmonicSteps(lTable)
    ensures PitchTables(B0Lookup, lTable)
  {
    B0LookupFacts();
  }

  /** encode_ambe could not encode the pitch: the start index lies outside
      b0_lookup, or no pitch index has n harmonics. */
  ghost predicate PitchMissing(lTable: seq<int>, refPitch: int, n: int)
    requires HarmonicSteps(lTable)
  {
    LookupTables(lTable);
    !(0 <= StartIndex(refPitch) < PitchIndices) || NoPitchFor(B0Lookup, lTable, n)
  }

  /** b0 is b0_lookup at b0i, the pitch index with n harmonics nearest to
      the start index. */
  ghost predicate PitchFound(lTable: seq<int>, refPitch: int, n: int, b0i: int, b0: int)
    requires HarmonicSteps(lTable)
  {
    LookupTables(lTable);
    && 0 <= b0i < PitchIndices && Harmonics(B0Lookup, lTable, b0i) == n
    && NoneBetween(B0Lookup, lTable, n, StartIndex(refPitch), b0i)
    && b0 == B0Lookup[b0i]
  }

  /** encode_ambe, discrete part. bands is the row of AmbeLmprbl for the
      harmonic count (the block lengths J[0..3]); costs holds the distances
      of the eight searches. Either the pitch could not be encoded and b
      holds the fallback fields, or b[0] encodes the pitch and the other
      fields are chosen as Quantized says. */
  method EncodeAmbe(refPitch: int, numHarms: int, lTable: seq<int>, bands: seq<int>,
                    costs: seq<seq<real>>, b: array<int>)
    returns (found: bool, b0i: int)
    requires b.Length == 9 && HarmonicSteps(lTable) && |bands| == 4 && Shaped(costs)
    modifies b
    ensures !found ==> b[..] == FallbackFields
    ensures !found <==> PitchMissing(lTable, refPitch, numHarms)
    ensures found ==> PitchFound(lTable, refPitch, numHarms, b0i, b[0])
    ensures found ==> Quantized(costs, bands, b[..])
  {
    LookupTables(lTable);
    found, b0i := PitchStep(refPitch, numHarms, B0Lookup, lTable, b);
    if found {
      Searches(costs, bands, b);
    }
  }

  // ---------------------------------------------------------------------
  // The fields fit their widths in the frame
  // ---------------------------------------------------------------------

  /** Every field is a nonnegative value of its width (7, 5, 5, 9, 7, 5, 4,
      4, 3 bits), so packing keeps it whole. */
  ghost predicate FitsWidths(fields: seq<int>) {
    |fields| == 9 && forall f :: 0 <= f < 9 ==> 0 <= fields[f] < Pow2(FrameCodec.Widths[f])
  }

  /** Each search size is at most two to the width of its field. */
  lemma SearchSizesFit()
    ensures forall s :: 0 <= s < 8 ==> SearchSizes[s] <= Pow2(FrameCodec.Widths[s + 1])
  {
    assert Pow2(3) == 8 && Pow2(4) == 16 && Pow2(5) == 32 && Pow2(7) == 128 && Pow2(9) == 512;
    assert FrameCodec.Widths == [7, 5, 5, 9, 7, 5, 4, 4, 3];
  }

  /** Whatever the analysis, encode_ambe's fields fit the frame layout:
      the fallback fields do (FallbackFits), and so do the fields of an
      encoded pitch. */
  lemma EncodedFits(lTable: seq<int>, refPitch: int, n: int, b0i: int,
                    costs: seq<seq<real>>, bands: seq<int>, fields: seq<int>)
    requires HarmonicSteps(lTable) && Shaped(costs) && |bands| == 4 && |fields| == 9
    requires PitchFound(lTable, refPitch, n, b0i, fields[0]) && Quantized(costs, bands, fields)
    ensures FitsWidths(fields)
  {
    B0LookupFacts();
    SearchSizesFit();
    assert Pow2(7) == 128;
    forall f | 1 <= f < 9
      ensures 0 <= fields[f] < Pow2(FrameCodec.Widths[f])
    {
      assert fields[f] < SearchSizes[f - 1];
    }
  }

  lemma FallbackFits()
    ensures FitsWidths(FallbackFields)
  {
    assert Pow2(7) == 128;
    assert FrameCodec.Widths == [7, 5, 5, 9, 7, 5, 4, 4, 3];
  }
}
