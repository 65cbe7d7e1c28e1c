/**
 * The public handles of the codec library (opendmr.cpp): the encoder
 * handle with its gain setting, and the checks that opendmr_encode and
 * opendmr_decode make before they touch a frame. The speech analysis that
 * turns PCM into the nine fields (MBEEncoder::encode_dmr_params) and the
 * synthesis that turns voice bits into PCM (mbelib) are not part of this
 * model: the fields an analysis yields are a parameter of Encode, and
 * Decode returns the 49 voice bits it would hand to the synthesis.
 */
module OpenDmr {
  import opened Bits
  import opened Bytes
  import opened Golay
  import opened FrameCodec
  import AmbeQuantizer

  /** OPENDMR_PCM_SAMPLES: one 20 ms frame at 8 kHz. */
  const PcmSamples := 160

  /** The gain range set_gain clamps to, in dB. */
  const MinGainDb := -20
  const MaxGainDb := 20

  /** The gain set_gain stores: the requested value pulled into
      [MinGainDb, MaxGainDb]. */
  function ClampGain(gainDb: int): (r: int)
    ensures MinGainDb <= r <= MaxGainDb
    ensures MinGainDb <= gainDb <= MaxGainDb ==> r == gainDb
    ensures gainDb < MinGainDb ==> r == MinGainDb
    ensures gainDb > MaxGainDb ==> r == MaxGainDb
  {
    if gainDb < MinGainDb then MinGainDb else if gainDb > MaxGainDb then MaxGainDb else gainDb
  }

  /** Clamping twice is clamping once. */
  lemma ClampIdempotent(gainDb: int)
    ensures ClampGain(ClampGain(gainDb)) == ClampGain(gainDb)
  {
  }

  /** A larger request never gives a smaller gain. */
  lemma ClampMonotone(x: int, y: int)
    requires x <= y
    ensures ClampGain(x) <= ClampGain(y)
  {
  }

  /** opendmr_encoder: the handle's gain in dB and the engine it owns. */
  class Encoder {
    /** gain_db. */
    var gainDb: int
    /** The gain, in dB, the engine was last given through set_gain_adjust
        (which the source passes as the linear factor 10^(dB / 20)). */
    var engineGainDb: int
    /** Frames the current engine instance has encoded; a new engine
        starts from a clean state. */
    var engineFrames: nat

    /** The handle's gain is in range and is the gain the engine uses. */
    ghost predicate Valid()
      reads this
    {
      MinGainDb <= gainDb <= MaxGainDb && engineGainDb == gainDb
    }

    /** opendmr_encoder_create: a new engine in DMR mode with unit gain
        (0 dB), and gain_db = 0. */
    constructor ()
      ensures gainDb == 0 && engineGainDb == 0 && engineFrames == 0
      ensures Valid()
    {
      gainDb := 0;
      engineGainDb := 0;
      engineFrames := 0;
    }
  }

  /** opendmr_encoder_reset: a null handle is ignored; otherwise the engine
      is replaced by a new one, given the stored gain, and gain_db is kept. */
  method EncoderReset(enc: Encoder?)
    modifies enc
    ensures enc != null ==> enc.gainDb == old(enc.gainDb) && enc.engineGainDb == enc.gainDb
    ensures enc != null ==> enc.engineFrames == 0
    ensures enc != null && old(enc.Valid()) ==> enc.Valid()
  {
    if enc != null {
      enc.engineFrames := 0;
      enc.engineGainDb := enc.gainDb;
    }
  }

  /** opendmr_encoder_set_gain: a null handle is ignored; otherwise the
      clamped gain is stored and passed to the engine, whose state is kept. */
  method SetGain(enc: Encoder?, gainDb: int)
    modifies enc
    ensures enc != null ==> enc.gainDb == ClampGain(gainDb) && enc.engineGainDb == enc.gainDb
    ensures enc != null ==> enc.engineFrames == old(enc.engineFrames)
    ensures enc != null ==> enc.Valid()
  {
    if enc != null {
      var g := gainDb;
      if g < MinGainDb {
        g := MinGainDb;
      }
      if g > MaxGainDb {
        g := MaxGainDb;
      }
      enc.gainDb := g;
      enc.engineGainDb := g;
    }
  }

  /** opendmr_encode. With a null handle, PCM buffer or frame buffer it
      returns false and changes nothing. Otherwise the engine analyses one
      frame of PCM into the nine fields (given here as fields) and the
      frame buffer receives their 72-bit frame. */
  method Encode(g: Codec, enc: Encoder?, pcm: array?<int>, ambe: array?<bv8>, fields: seq<int>)
    returns (ok: bool)
    requires |fields| == 9
    requires pcm != null ==> pcm.Length == PcmSamples
    requires ambe != null ==> ambe.Length == FrameBytes
    modifies enc, ambe
    ensures ok <==> enc != null && pcm != null && ambe != null
    ensures !ok ==> (enc != null ==> unchanged(enc)) && (ambe != null ==> unchanged(ambe))
    ensures ok ==> BytesToBits(ambe[..]) == WireBits(g, PackFields(fields))
    ensures ok ==> enc.gainDb == old(enc.gainDb) && enc.engineGainDb == old(enc.engineGainDb)
    ensures ok ==> enc.engineFrames == old(enc.engineFrames) + 1
  {
    if enc == null || pcm == null || ambe == null {
      return false;
    }
    enc.engineFrames := enc.engineFrames + 1;
    EncodeAmbeFrame(g, fields, ambe);
    return true;
  }

  /** opendmr_decoder: its state belongs to the synthesis, which is not
      part of this model. */
  class Decoder {
    constructor ()
    {
    }
  }

  /** opendmr_decode. With a null handle, frame buffer or PCM buffer it
      returns false and no voice bits. Otherwise it returns true and the 49
      voice bits decode_ambe_frame recovers from the frame. */
  method Decode(g: Codec, dec: Decoder?, ambe: array?<bv8>, pcm: array?<int>)
    returns (ok: bool, voice: seq<nat>)
    requires ambe != null ==> ambe.Length == FrameBytes
    requires pcm != null ==> pcm.Length == PcmSamples
    ensures ok <==> dec != null && ambe != null && pcm != null
    ensures ok ==> voice == ReceivedBits(g, BytesToBits(ambe[..]))
    ensures !ok ==> voice == []
  {
    if dec == null || ambe == null || pcm == null {
      return false, [];
    }
    var ambeD := new nat[VoiceBits];
    DecodeAmbeFrame(g, ambe, ambeD);
    return true, ambeD[..];
  }

  /** A frame from Encode, given to Decode, yields fields equal to the
      encoded ones in their low Widths[f] bits. */
  lemma EncodeThenDecode(g: Codec, fields: seq<int>)
    requires Valid(g) && |fields| == 9
    ensures forall f :: 0 <= f < 9 ==>
      UnpackFields(ReceivedBits(g, WireBits(g, PackFields(fields))))[f] == fields[f] % Pow2(Widths[f])
  {
    FrameRoundTrip(g, PackFields(fields));
    UnpackPack(fields);
  }

  /** Fields that fit their widths cross the wire whole: Decode returns
      exactly the fields Encode was given. */
  lemma FittingFieldsSurvive(g: Codec, fields: seq<int>)
    requires Valid(g) && AmbeQuantizer.FitsWidths(fields)
    ensures UnpackFields(ReceivedBits(g, WireBits(g, PackFields(fields)))) == fields
  {
    EncodeThenDecode(g, fields);
    LowBitsOfFitting(UnpackFields(ReceivedBits(g, WireBits(g, PackFields(fields)))), fields);
  }

  /** A field vector that fits its widths is its own low-bits reduction. */
  lemma LowBitsOfFitting(r: seq<nat>, fields: seq<int>)
    requires |r| == 9 && AmbeQuantizer.FitsWidths(fields)
    requires forall f :: 0 <= f < 9 ==> r[f] == fields[f] % Pow2(Widths[f])
    ensures r == fields
  {
    forall f | 0 <= f < 9
      ensures r[f] == fields[f]
    {
      var w := Pow2(Widths[f]);
      assert 0 <= fields[f] < w;
      assert fields[f] % w == fields[f];
    }
    assert |r| == |fields|;
  }

  /** The fields encode_ambe produces for a found pitch reach the decoder
      unchanged, with no loss to the field widths. */
  lemma EncodedFieldsSurvive(g: Codec, lTable: seq<int>, refPitch: int, n: int, b0i: int,
                             costs: seq<seq<real>>, bands: seq<int>, fields: seq<int>)
    requires Valid(g) && AmbeQuantizer.HarmonicSteps(lTable)
    requires AmbeQuantizer.Shaped(costs) && |bands| == 4 && |fields| == 9
    requires AmbeQuantizer.PitchFound(lTable, refPitch, n, b0i, fields[0])
    requires AmbeQuantizer.Quantized(costs, bands, fields)
    ensures UnpackFields(ReceivedBits(g, WireBits(g, PackFields(fields)))) == fields
  {
    AmbeQuantizer.EncodedFits(lTable, refPitch, n, b0i, costs, bands, fields);
    FittingFieldsSurvive(g, fields);
  }

  /** The silence fallback of encode_ambe reaches the decoder unchanged. */
  lemma FallbackSurvives(g: Codec)
    requires Valid(g)
    ensures UnpackFields(ReceivedBits(g, WireBits(g, PackFields(AmbeQuantizer.FallbackFields))))
      == AmbeQuantizer.FallbackFields
  {
    AmbeQuantizer.FallbackFits();
    FittingFieldsSurvive(g, AmbeQuantizer.FallbackFields);
  }
}
