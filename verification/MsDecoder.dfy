/** The audio-output decoder's MS-ADPCM block loop, and what it makes of the encoder's
    blocks. */
module MsDecoder {
  import opened Bits
  import opened Wire
  import opened Pcm
  import opened MsChoice
  import opened MsStream
  import opened MsBlocks
  import opened MsCodec
  import MsAdpcm

  /** One block into a buffer of its own; blocks of fewer than two samples are skipped. */
  function MsDecoded(blk: seq<byte>, channels: channelCount, spb: nat): seq<sample> {
    if |blk| < 7 * channels || spb < 2 then []
    else
      var v := ReadHeader(blk, channels);
      Samp2s(v) + Samp1s(v) + Decoded(v, 0, Upto(UnpackHigh(blk[7 * channels..]), Wanted(channels, spb)))
  }

  method DecodeMsBlock(blk: seq<byte>, channels: channelCount, samplesPerBlock: nat) returns (dst: seq<sample>)
    ensures dst == MsDecoded(blk, channels, samplesPerBlock)
  {
    if |blk| < 7 * channels || samplesPerBlock < 2 {
      return [];
    }
    var v := ReadChannels(blk, channels);
    dst := Samp2s(v) + Samp1s(v);
    var rest := DecodeNibbles(blk[7 * channels..], channels, samplesPerBlock, v);
    dst := dst + rest;
  }

  method ReadChannels(blk: seq<byte>, channels: channelCount) returns (v: Voices)
    requires |blk| >= 7 * channels
    ensures v == ReadHeader(blk, channels)
  {
    hide ReadVoice, ReadPair;
    v := Voices([], []);
    var off := 0;
    for ch := 0 to channels
      invariant |v.cis| == |v.vs| == ch
      invariant forall k :: 0 <= k < ch ==> v.cis[k] == ReadPair(blk[k]) && v.vs[k] == ReadVoice(blk, channels, k)
    {
      v := Voices(v.cis + [ReadPair(blk[ch])], v.vs + [ReadVoice(blk, channels, ch)]);
    }
  }

  method DecodeNibbles(dataBytes: seq<byte>, channels: channelCount, samplesPerBlock: nat, v0: Voices) returns (dst: seq<sample>)
    requires samplesPerBlock >= 2 && Mixed(v0, 0) && |v0.vs| == channels
    ensures dst == Decoded(v0, 0, Upto(UnpackHigh(dataBytes), Wanted(channels, samplesPerBlock)))
  {
    ghost var limit := Wanted(channels, samplesPerBlock);
    var v, ch, i, samplesDecoded := v0, 0, 0, 2;
    dst := [];
    NothingRead(v0, dataBytes);
    hide At, Decoded, UnpackHigh, After, MsAdpcm.Decode;
    while i < |dataBytes| && samplesDecoded < samplesPerBlock
      invariant i <= |dataBytes| && |dst| == (if 2 * i < limit then 2 * i else limit)
      invariant samplesDecoded == 2 + (if channels == 1 then |dst| else |dst| / 2) && (samplesDecoded < samplesPerBlock ==> ch == 0)
      invariant At(v0, dataBytes, |dst|, dst, v, ch)
    {
      dst, v, ch := ReadNibble(v0, dataBytes, dataBytes[i], i, dst, v, ch, true);
      if channels == 1 {
        samplesDecoded := samplesDecoded + 1;
      }
      if channels == 2 || samplesDecoded < samplesPerBlock {
        dst, v, ch := ReadNibble(v0, dataBytes, dataBytes[i], i, dst, v, ch, false);
        samplesDecoded := samplesDecoded + 1;
      }
      i := i + 1;
    }
    ReadAll(v0, dataBytes, limit, dst, v, ch);
  }

  /** After n nibbles of the data: the samples put out, the channels, whose turn it is. */
  ghost predicate At(v0: Voices, data: seq<byte>, n: nat, out: seq<sample>, v: Voices, ch: nat)
    requires Mixed(v0, 0)
  {
    && n <= 2 * |data| && Mixed(v, ch) && |v.vs| == |v0.vs| && ch == ChannelAt(0, |v0.vs|, n)
    && out == Decoded(v0, 0, UnpackHigh(data)[..n]) && v == After(v0, 0, UnpackHigh(data)[..n])
  }

  lemma {:induction false} NothingRead(v0: Voices, data: seq<byte>)
    requires Mixed(v0, 0)
    ensures At(v0, data, 0, [], v0, 0)
  {
    hide UnpackHigh;
    assert UnpackHigh(data)[..0] == [];
  }

  lemma {:induction false} ReadAll(v0: Voices, data: seq<byte>, limit: nat, out: seq<sample>, v: Voices, ch: nat)
    requires Mixed(v0, 0) && At(v0, data, if 2 * |data| < limit then 2 * |data| else limit, out, v, ch)
    ensures out == Decoded(v0, 0, Upto(UnpackHigh(data), limit))
  {
  }

  /** One nibble: the high one of byte i, or the low one. */
  method ReadNibble(ghost v0: Voices, ghost data: seq<byte>, b: byte, ghost i: nat, dst: seq<sample>, v: Voices, ch: nat, high: bool)
    returns (dst': seq<sample>, v': Voices, ch': nat)
    requires Mixed(v0, 0) && i < |data| && b == data[i] && |dst| == (if high then 2 * i else 2 * i + 1)
    requires At(v0, data, |dst|, dst, v, ch)
    ensures |dst'| == |dst| + 1 && At(v0, data, |dst'|, dst', v', ch') && ch' == Turn(ch, |v.vs|)
  {
    hide UnpackHigh, Decoded, After, MsAdpcm.Decode;
    UnpackHighAt(data, i);
    var nibble := FromUnsigned(if high then b / 16 else b % 16);
    var voice := v.vs[ch];
    var delta, samp1, samp2 := MsAdpcm.DecodeNibble(nibble, voice.delta, voice.samp1, voice.samp2, v.cis[ch]);
    v' := v.(vs := v.vs[ch := MsAdpcm.Voice(delta, samp1, samp2)]);
    dst' := dst + [samp1];
    ch' := if ch + 1 == |v.vs| then 0 else ch + 1;
    ReadOne(v0, data, |dst|, dst, v, ch, nibble);
  }

  lemma {:induction false} ReadOne(v0: Voices, data: seq<byte>, n: nat, out: seq<sample>, v: Voices, ch: nat, nibble: quotient)
    requires Mixed(v0, 0) && n < 2 * |data| && At(v0, data, n, out, v, ch) && nibble == UnpackHigh(data)[n]
    ensures var v' := Update(v, ch, nibble);
            At(v0, data, n + 1, out + [v'.vs[ch].samp1], v', Turn(ch, |v.vs|))
  {
    hide UnpackHigh, Decoded, After, MsAdpcm.Decode;
    var qs := UnpackHigh(data);
    assert qs[..n + 1] == qs[..n] + [qs[n]];
    AfterSnoc(v0, 0, qs[..n], nibble);
  }

  /** The decoder gives the two first samples of every channel, then what the nibbles
      stand for: all samples asked for, or as many as the block's bytes hold. */
  lemma {:induction false} MsRoundTrip(samples: seq<sample>, channels: channelCount, spb: nat, blockAlign: nat)
    requires spb >= 2 && blockAlign >= 7 * channels
    ensures var v, n := Opening(samples, channels), Count(channels, spb, blockAlign);
            MsDecoded(MsBlock(samples, channels, spb, blockAlign), channels, spb) ==
              Samp2s(v) + Samp1s(v) + Decoded(v, 0, Quotients(v, 0, Tail(samples, channels, n)))
  {
    var v, n := Opening(samples, channels), Count(channels, spb, blockAlign);
    var qs, z := TailNibbles(samples, channels, n), Zeroes(blockAlign - 7 * channels - (n + 1) / 2);
    var block := MsBlock(samples, channels, spb, blockAlign);
    assert block == Header(v) + PackHigh(qs) + z;
    assert |Header(v)| == 7 * channels;
    hide Header, PackHigh, UnpackHigh, Opening, Zeroes, Decoded;
    assert block == Header(v) + (PackHigh(qs) + z);
    HeaderRoundTrip(v, PackHigh(qs) + z);
    assert block[7 * channels..] == PackHigh(qs) + z;
    NibblesBack(qs, z, Wanted(channels, spb));
  }

  lemma {:induction false} NibblesBack(qs: seq<quotient>, z: seq<byte>, wanted: nat)
    requires |qs| == Least(2 * |PackHigh(qs) + z|, wanted)
    ensures Upto(UnpackHigh(PackHigh(qs) + z), wanted) == qs
  {
    hide PackHigh, UnpackHigh;
    UnpackHighConcat(PackHigh(qs), z);
    UnpackPackHigh(qs);
    var all := UnpackHigh(PackHigh(qs)) + UnpackHigh(z);
    assert all[..|qs|] == qs;
  }

  /** The whole of what a listener hears of a block that holds its samples: the first two
      samples of each channel exactly, and every later one within the step of its moment,
      unless it had jumped out of the nibble's range; the step stays in [16, 49152]. */
  lemma {:induction false} MsTracks(samples: seq<sample>, channels: channelCount, spb: nat, blockAlign: nat, i: nat)
    requires spb >= 2 && blockAlign >= 7 * channels && i < Count(channels, spb, blockAlign)
    ensures var v, n := Opening(samples, channels), Count(channels, spb, blockAlign);
            var out := MsDecoded(MsBlock(samples, channels, spb, blockAlign), channels, spb);
            && |out| == 2 * channels + n
            && Tracks(v, 0, Tail(samples, channels, n), out[2 * channels..], i)
            && DeltasOk(After(v, 0, Quotients(v, 0, Tail(samples, channels, n))[..i]))
  {
    var v, n := Opening(samples, channels), Count(channels, spb, blockAlign);
    MsRoundTrip(samples, channels, spb, blockAlign);
    var ss := Tail(samples, channels, n);
    assert DeltasOk(v);
    hide MsDecoded, MsBlock, Opening, Tail, Tracks, Decoded, Quotients, After, Samp1s, Samp2s;
    var out := MsDecoded(MsBlock(samples, channels, spb, blockAlign), channels, spb);
    assert out[2 * channels..] == Decoded(v, 0, Quotients(v, 0, ss));
    DecoderTracks(v, 0, ss, i);
    DeltasStay(v, 0, ss, i);
  }
}
