/** Audio input: PCM handed over in pieces of any size leaves in whole ADPCM blocks. */
module Audin {
  import opened Bits
  import opened Wire
  import opened Pcm
  import opened Ima
  import opened ImaBlocks
  import ImaDecoder
  import MsChoice
  import MsStream
  import MsBlocks
  import MsCodec
  import MsDecoder

  const MSG_DATA_INCOMING: byte := 5
  const MSG_DATA: byte := 6

  datatype Tag = Pcm | MsAdpcm | ImaAdpcm

  datatype Format = Format(tag: Tag, channels: nat, blockAlign: nat, extraData: seq<byte>)

  datatype State = State(
    recording: bool, format: Format, indices: (index, index), pending: seq<sample>, sent: seq<seq<byte>>)

  /** ADPCMSamplesPerBlock. */
  function SamplesPerBlock(f: Format): nat {
    var channels := if f.channels < 1 then 1 else f.channels;
    match f.tag
    case ImaAdpcm =>
      var dataBytes := f.blockAlign - 4 * channels;
      if |f.extraData| >= 2 then GetLe16(f.extraData)
      else if dataBytes < 0 then 1
      else if channels == 1 then 1 + dataBytes * 2
      else 1 + dataBytes / channels / 4 * 8
    case MsAdpcm =>
      var dataBytes := f.blockAlign - 7 * channels;
      if |f.extraData| >= 2 then GetLe16(f.extraData)
      else if dataBytes < 0 then 2
      else 2 + dataBytes * 2 / channels
    case Pcm => 1
  }

  function SamplesPerFrame(f: Format): nat { SamplesPerBlock(f) * f.channels }

  // ---------- one block ----------

  function ImaBlock(samples: seq<sample>, channels: nat, spb: nat, ix: (index, index)): (seq<byte>, (index, index)) {
    if channels == 1 then (MonoBlock(samples, spb, ix.0), (Last(samples, 1, 0, Pred(spb), ix.0).index, ix.1))
    else if channels == 2 then
      var n := 8 * Chunks(spb);
      (StereoBlock(samples, spb, ix.0, ix.1), (Last(samples, 2, 0, n, ix.0).index, Last(samples, 2, 1, n, ix.1).index))
    else ([], ix)
  }

  function MsBlock(samples: seq<sample>, channels: nat, spb: nat, blockAlign: nat): seq<byte> {
    if 1 <= channels <= 2 && blockAlign >= 7 * channels then MsCodec.MsBlock(samples, channels, spb, blockAlign) else []
  }

  function EncodeBlock(f: Format, ix: (index, index), block: seq<sample>): (seq<byte>, (index, index)) {
    if f.tag == ImaAdpcm then ImaBlock(block, f.channels, SamplesPerBlock(f), ix)
    else (MsBlock(block, f.channels, SamplesPerBlock(f), f.blockAlign), ix)
  }

  // ---------- one call ----------

  function Messages(payload: seq<byte>): seq<seq<byte>> { [[MSG_DATA_INCOMING], [MSG_DATA] + payload] }

  function Samples(pcm: seq<byte>): (s: seq<sample>)
    ensures |s| == |pcm| / 2
  {
    seq(|pcm| / 2, i requires 0 <= i < |pcm| / 2 => Int16(GetLe16(pcm[2 * i..])))
  }

  datatype Emission = Emission(indices: (index, index), sent: seq<seq<byte>>, rest: seq<sample>)

  /** Encode and send whole blocks. */
  function Emit(f: Format, ix: (index, index), samples: seq<sample>): Emission
    requires SamplesPerFrame(f) > 0
    decreases |samples|
  {
    var n := SamplesPerFrame(f);
    if |samples| < n then Emission(ix, [], samples)
    else
      var (block, ix') := EncodeBlock(f, ix, samples[..n]);
      var e := Emit(f, ix', samples[n..]);
      e.(sent := Messages(block) + e.sent)
  }

  /** The loop ends for this format. */
  predicate Ends(f: Format) { f.tag == Pcm || SamplesPerFrame(f) > 0 }

  function Send(s: State, pcm: seq<byte>): State
    requires Ends(s.format)
  {
    if !s.recording || pcm == [] then s
    else if s.format.tag == Pcm then s.(sent := s.sent + Messages(pcm))
    else
      var e := Emit(s.format, s.indices, s.pending + Samples(pcm));
      s.(indices := e.indices, pending := e.rest, sent := s.sent + e.sent)
  }

  // ---------- what the calls keep ----------

  /** Less than a block waits. */
  ghost predicate Valid(s: State) { s.format.tag == Pcm || |s.pending| < SamplesPerFrame(s.format) }

  lemma {:induction false} RestIsShort(f: Format, ix: (index, index), samples: seq<sample>)
    requires SamplesPerFrame(f) > 0
    ensures |Emit(f, ix, samples).rest| < SamplesPerFrame(f)
    decreases |samples|
  {
    hide EncodeBlock, SamplesPerFrame;
    var n := SamplesPerFrame(f);
    if |samples| >= n {
      RestIsShort(f, EncodeBlock(f, ix, samples[..n]).1, samples[n..]);
    }
  }

  lemma {:induction false} EmitConcat(f: Format, ix: (index, index), a: seq<sample>, b: seq<sample>)
    requires SamplesPerFrame(f) > 0
    ensures var e := Emit(f, ix, a);
            var e' := Emit(f, e.indices, e.rest + b);
            Emit(f, ix, a + b) == e'.(sent := e.sent + e'.sent)
    decreases |a|
  {
    hide EncodeBlock, SamplesPerFrame;
    var n := SamplesPerFrame(f);
    if |a| < n {
      assert [] + Emit(f, ix, a + b).sent == Emit(f, ix, a + b).sent;
    } else {
      var (block, ix') := EncodeBlock(f, ix, a[..n]);
      EmitConcat(f, ix', a[n..], b);
      assert (a + b)[..n] == a[..n] && (a + b)[n..] == a[n..] + b;
      var e := Emit(f, ix', a[n..]);
      var e' := Emit(f, e.indices, e.rest + b);
      assert Messages(block) + (e.sent + e'.sent) == Messages(block) + e.sent + e'.sent;
    }
  }

  /** Samples of consecutive pieces, the first of even length, are the samples of the
      whole. */
  lemma {:induction false} SamplesConcat(a: seq<byte>, b: seq<byte>)
    requires |a| % 2 == 0
    ensures Samples(a + b) == Samples(a) + Samples(b)
  {
    hide GetLe16;
    forall i | 0 <= i < |a + b| / 2 ensures Samples(a + b)[i] == (Samples(a) + Samples(b))[i] {
      if i < |a| / 2 {
        WordAt(a + b, a, 2 * i, 2 * i);
      } else {
        WordAt(a + b, b, 2 * i, 2 * (i - |a| / 2));
      }
    }
  }

  lemma {:induction false} WordAt(a: seq<byte>, b: seq<byte>, i: nat, j: nat)
    requires i + 1 < |a| && j + 1 < |b| && a[i] == b[j] && a[i + 1] == b[j + 1]
    ensures GetLe16(a[i..]) == GetLe16(b[j..])
  {
  }

  /** How the caller cuts the sound does not matter: two calls do what one call with both
      pieces does. */
  lemma {:induction false} SendConcat(s: State, a: seq<byte>, b: seq<byte>)
    requires Ends(s.format) && s.format.tag != Pcm && Valid(s) && |a| % 2 == 0
    ensures Send(Send(s, a), b) == Send(s, a + b)
  {
    hide *;
    if a == [] || !s.recording {
      SendNothing(s, a);
      SendNothing(s, b);
      SendNothing(s, a + b);
      assert a == [] ==> a + b == b;
    } else if b == [] {
      SendKeeps(s, a);
      SendNothing(Send(s, a), b);
      assert a + b == a;
    } else {
      SamplesConcat(a, b);
      var p := s.pending + Samples(a);
      assert s.pending + Samples(a + b) == p + Samples(b);
      SendIs(s, a);
      EmitConcat(s.format, s.indices, p, Samples(b));
      SendIs(s, a + b);
      SendIs(Send(s, a), b);
      var e := Emit(s.format, s.indices, p);
      var e' := Emit(s.format, e.indices, e.rest + Samples(b));
      assert s.sent + (e.sent + e'.sent) == s.sent + e.sent + e'.sent;
    }
  }

  lemma {:induction false} SendIs(s: State, pcm: seq<byte>)
    requires s.recording && pcm != [] && s.format.tag != Pcm && Ends(s.format)
    ensures SamplesPerFrame(s.format) > 0
    ensures var e := Emit(s.format, s.indices, s.pending + Samples(pcm));
            Send(s, pcm) == s.(indices := e.indices, pending := e.rest, sent := s.sent + e.sent)
  {
    hide Emit, SamplesPerFrame, Samples;
  }

  function SendAll(s: State, pieces: seq<seq<byte>>): State
    requires Ends(s.format)
    decreases pieces
  {
    if pieces == [] then s else SendAll(Send(s, pieces[0]), pieces[1..])
  }

  function Concat<T>(parts: seq<seq<T>>): seq<T> {
    if parts == [] then [] else parts[0] + Concat(parts[1..])
  }

  ghost predicate Even(pieces: seq<seq<byte>>) { forall i :: 0 <= i < |pieces| ==> |pieces[i]| % 2 == 0 }

  /** Any number of calls does what one call with everything does. */
  lemma {:induction false} SendsAreOne(s: State, pieces: seq<seq<byte>>)
    requires Ends(s.format) && s.format.tag != Pcm && Valid(s) && Even(pieces)
    ensures SendAll(s, pieces) == Send(s, Concat(pieces))
    decreases pieces
  {
    hide Send, Ends, Valid;
    if pieces == [] {
      SendNothing(s, []);
    } else {
      SendKeeps(s, pieces[0]);
      SendsAreOne(Send(s, pieces[0]), pieces[1..]);
      SendConcat(s, pieces[0], Concat(pieces[1..]));
    }
  }

  lemma {:induction false} SendNothing(s: State, pcm: seq<byte>)
    requires Ends(s.format)
    ensures pcm == [] || !s.recording ==> Send(s, pcm) == s
  {
    hide Emit, SamplesPerFrame, Samples;
  }

  lemma {:induction false} SendKeeps(s: State, pcm: seq<byte>)
    requires Ends(s.format) && Valid(s)
    ensures Valid(Send(s, pcm)) && Send(s, pcm).format == s.format
  {
    if s.format.tag != Pcm {
      hide SamplesPerFrame;
      RestIsShort(s.format, s.indices, s.pending + Samples(pcm));
    }
  }

  // ---------- conservation ----------

  /** The blocks cut from the samples. */
  function Frames(samples: seq<sample>, n: nat): seq<seq<sample>>
    requires n > 0
    decreases |samples|
  {
    if |samples| < n then [] else [samples[..n]] + Frames(samples[n..], n)
  }

  lemma {:induction false} Rejoin(samples: seq<sample>, n: nat, mid: seq<sample>, rest: seq<sample>)
    requires n <= |samples| && mid + rest == samples[n..]
    ensures samples[..n] + mid + rest == samples
  {
    assert samples[..n] + (mid + rest) == samples;
  }

  /** Every block is full, and blocks and remainder together are the samples. */
  lemma {:induction false} FramesConserve(f: Format, ix: (index, index), samples: seq<sample>)
    requires SamplesPerFrame(f) > 0
    ensures var frames := Frames(samples, SamplesPerFrame(f));
            && Concat(frames) + Emit(f, ix, samples).rest == samples
            && forall i :: 0 <= i < |frames| ==> |frames[i]| == SamplesPerFrame(f)
    decreases |samples|
  {
    hide EncodeBlock, SamplesPerFrame;
    var n := SamplesPerFrame(f);
    if |samples| >= n {
      var ix' := EncodeBlock(f, ix, samples[..n]).1;
      FramesConserve(f, ix', samples[n..]);
      Rejoin(samples, n, Concat(Frames(samples[n..], n)), Emit(f, ix', samples[n..]).rest);
    }
  }

  /** The encoder's indices before block k. */
  function IndicesAt(f: Format, ix: (index, index), frames: seq<seq<sample>>, k: nat): (index, index)
    requires k <= |frames|
    decreases k
  {
    if k == 0 then ix else IndicesAt(f, EncodeBlock(f, ix, frames[0]).1, frames[1..], k - 1)
  }

  /** One announcement and one data message per block, in order, each block encoded from
      where the last one left the encoder. */
  lemma {:induction false} BlockMessages(f: Format, ix: (index, index), samples: seq<sample>, k: nat)
    requires SamplesPerFrame(f) > 0
    requires k < |Frames(samples, SamplesPerFrame(f))|
    ensures var frames, e := Frames(samples, SamplesPerFrame(f)), Emit(f, ix, samples);
            && |e.sent| == 2 * |frames|
            && e.indices == IndicesAt(f, ix, frames, |frames|)
            && e.sent[2 * k] == [5]
            && e.sent[2 * k + 1] == [6] + EncodeBlock(f, IndicesAt(f, ix, frames, k), frames[k]).0
    decreases |samples|
  {
    hide *;
    var n := SamplesPerFrame(f);
    FramesAre(samples, n);
    EmitIs(f, ix, samples);
    var (block, ix') := EncodeBlock(f, ix, samples[..n]);
    var later := Frames(samples[n..], n);
    MessagesAre(block);
    if later == [] {
      FramesAre(samples[n..], n);
      EmitIs(f, ix', samples[n..]);
    } else {
      BlockMessages(f, ix', samples[n..], if k == 0 then 0 else k - 1);
    }
    IndicesStep(f, ix, Frames(samples, n), |Frames(samples, n)|);
    IndicesStep(f, ix, Frames(samples, n), k);
    IndicesStep(f, ix', later, 0);
  }

  lemma {:induction false} FramesAre(samples: seq<sample>, n: nat)
    requires n > 0
    ensures if |samples| < n then Frames(samples, n) == []
            else Frames(samples, n) == [samples[..n]] + Frames(samples[n..], n) && Frames(samples, n)[1..] == Frames(samples[n..], n)
  {
  }

  lemma {:induction false} EmitIs(f: Format, ix: (index, index), samples: seq<sample>)
    requires SamplesPerFrame(f) > 0
    ensures var n := SamplesPerFrame(f);
            if |samples| < n then Emit(f, ix, samples) == Emission(ix, [], samples)
            else
              var (block, ix') := EncodeBlock(f, ix, samples[..n]);
              var e := Emit(f, ix', samples[n..]);
              Emit(f, ix, samples) == Emission(e.indices, Messages(block) + e.sent, e.rest)
  {
    hide EncodeBlock, SamplesPerFrame, Messages;
  }

  lemma {:induction false} MessagesAre(payload: seq<byte>)
    ensures Messages(payload) == [[5], [6] + payload]
  {
  }

  lemma {:induction false} IndicesStep(f: Format, ix: (index, index), frames: seq<seq<sample>>, k: nat)
    requires k <= |frames|
    ensures IndicesAt(f, ix, frames, k) == if k == 0 then ix else IndicesAt(f, EncodeBlock(f, ix, frames[0]).1, frames[1..], k - 1)
  {
    hide EncodeBlock;
  }

  /** What a listener makes of the k-th mono block: its first sample, and then, sample for
      sample, the decoder's output for the rest of the frame, without padding. */
  lemma {:induction false} MonoHeard(f: Format, ix: (index, index), samples: seq<sample>, k: nat)
    requires f.tag == ImaAdpcm && f.channels == 1 && SamplesPerFrame(f) > 0
    requires k < |Frames(samples, SamplesPerFrame(f))|
    ensures var frames, e, spb := Frames(samples, SamplesPerFrame(f)), Emit(f, ix, samples), SamplesPerBlock(f);
            && |e.sent| == 2 * |frames| && e.sent[2 * k + 1] != [] && |frames[k]| == spb > 0
            && ImaDecoder.MonoDecoded(e.sent[2 * k + 1][1..], spb) ==
                 [frames[k][0]] + ImaDecoder.Output(Channel(frames[k][0], IndicesAt(f, ix, frames, k).0), frames[k][1..])
  {
    hide *;
    FrameSize(f);
    var n, spb := SamplesPerFrame(f), SamplesPerBlock(f);
    var frames := Frames(samples, n);
    BlockMessages(f, ix, samples, k);
    FramesConserve(f, ix, samples);
    MonoHears(frames[k], spb, IndicesAt(f, ix, frames, k).0);
    BlockOf(f, IndicesAt(f, ix, frames, k), frames[k]);
    assert ([6] + EncodeBlock(f, IndicesAt(f, ix, frames, k), frames[k]).0)[1..] == EncodeBlock(f, IndicesAt(f, ix, frames, k), frames[k]).0;
  }

  lemma {:induction false} FrameSize(f: Format)
    ensures SamplesPerFrame(f) == f.channels * SamplesPerBlock(f)
  {
    hide SamplesPerBlock;
  }

  lemma {:induction false} BlockOf(f: Format, ix: (index, index), frame: seq<sample>)
    requires f.tag == ImaAdpcm && f.channels == 1
    ensures EncodeBlock(f, ix, frame).0 == MonoBlock(frame, SamplesPerBlock(f), ix.0)
  {
  }

  lemma {:induction false} MonoHears(frame: seq<sample>, spb: nat, i: index)
    requires |frame| == spb > 0
    ensures ImaDecoder.MonoDecoded(MonoBlock(frame, spb, i), spb) == [frame[0]] + ImaDecoder.Output(Channel(frame[0], i), frame[1..])
  {
    hide MonoBlock, ImaDecoder.MonoDecoded, ImaDecoder.Output;
    ImaDecoder.MonoRoundTrip(frame, spb, i);
    assert Plane(frame, 1, 0, spb - 1) == frame[1..];
  }

  /** The samples of a stereo frame from some pair on, channel by channel, are the
      frame's. */
  lemma {:induction false} PlanesInterleave(frame: seq<sample>, from: nat, l: seq<sample>, r: seq<sample>)
    requires |l| == |r| && |frame| == 2 * (from + |l|)
    requires forall i :: 0 <= i < |l| ==> l[i] == frame[2 * (from + i)] && r[i] == frame[2 * (from + i) + 1]
    ensures ImaDecoder.Interleave(l, r) == frame[2 * from..]
    decreases l
  {
    if l != [] {
      forall i | 0 <= i < |l[1..]| ensures l[1..][i] == frame[2 * (from + 1 + i)] && r[1..][i] == frame[2 * (from + 1 + i) + 1] {
        assert l[1..][i] == l[i + 1] && r[1..][i] == r[i + 1];
      }
      PlanesInterleave(frame, from + 1, l[1..], r[1..]);
      assert l[0] == frame[2 * (from + 0)] && r[0] == frame[2 * (from + 0) + 1];
      assert frame[2 * from..] == [l[0], r[0]] + frame[2 * (from + 1)..];
    }
  }

  lemma {:induction false} PlaneAt(frame: seq<sample>, n: nat, i: nat)
    requires |frame| == 2 * (1 + n) && i < n
    ensures Plane(frame, 2, 0, n)[i] == frame[2 * (1 + i)] && Plane(frame, 2, 1, n)[i] == frame[2 * (1 + i) + 1]
  {
  }

  lemma {:induction false} StereoHears(frame: seq<sample>, spb: nat, left: index, right: index)
    requires |frame| == 2 * spb > 0
    ensures var l, r := Plane(frame, 2, 0, spb - 1), Plane(frame, 2, 1, spb - 1);
            && ImaDecoder.Interleave(l, r) == frame[2..]
            && ImaDecoder.StereoDecoded(StereoBlock(frame, spb, left, right), spb) ==
                 ImaDecoder.Some(frame[..2] + ImaDecoder.Interleave(ImaDecoder.Output(Channel(frame[0], left), l), ImaDecoder.Output(Channel(frame[1], right), r)))
  {
    hide *;
    ImaDecoder.StereoRoundTrip(frame, spb, left, right);
    FirstIs(frame, 0, left);
    FirstIs(frame, 1, right);
    PlanesAre(frame, spb);
    assert frame[..2] == [frame[0], frame[1]];
  }

  lemma {:induction false} FirstIs(frame: seq<sample>, ch: nat, i: index)
    requires ch < 2 <= |frame|
    ensures First(frame, 2, ch, i) == Channel(frame[ch], i)
  {
  }

  lemma {:induction false} PlanesAre(frame: seq<sample>, spb: nat)
    requires |frame| == 2 * spb > 0
    ensures ImaDecoder.Interleave(Plane(frame, 2, 0, spb - 1), Plane(frame, 2, 1, spb - 1)) == frame[2..]
  {
    hide *;
    var l, r := Plane(frame, 2, 0, spb - 1), Plane(frame, 2, 1, spb - 1);
    forall i | 0 <= i < |l| ensures l[i] == frame[2 * (1 + i)] && r[i] == frame[2 * (1 + i) + 1] {
      PlaneAt(frame, spb - 1, i);
    }
    PlanesInterleave(frame, 1, l, r);
  }

  /** The same in stereo: the first pair, and then the two channels' output interleaved as
      their samples are in the frame. */
  lemma {:induction false} StereoHeard(f: Format, ix: (index, index), samples: seq<sample>, k: nat)
    requires f.tag == ImaAdpcm && f.channels == 2 && SamplesPerFrame(f) > 0
    requires k < |Frames(samples, SamplesPerFrame(f))|
    ensures var frames, e, spb := Frames(samples, SamplesPerFrame(f)), Emit(f, ix, samples), SamplesPerBlock(f);
            && |e.sent| == 2 * |frames| && e.sent[2 * k + 1] != [] && |frames[k]| == 2 * spb > 0
            && var (left, right), l, r := IndicesAt(f, ix, frames, k), Plane(frames[k], 2, 0, spb - 1), Plane(frames[k], 2, 1, spb - 1);
               ImaDecoder.Interleave(l, r) == frames[k][2..] &&
               ImaDecoder.StereoDecoded(e.sent[2 * k + 1][1..], spb) ==
                 ImaDecoder.Some(frames[k][..2] +
                   ImaDecoder.Interleave(ImaDecoder.Output(Channel(frames[k][0], left), l), ImaDecoder.Output(Channel(frames[k][1], right), r)))
  {
    hide *;
    FrameSize(f);
    var n, spb := SamplesPerFrame(f), SamplesPerBlock(f);
    var frames := Frames(samples, n);
    BlockMessages(f, ix, samples, k);
    FramesConserve(f, ix, samples);
    var (left, right) := IndicesAt(f, ix, frames, k);
    StereoHears(frames[k], spb, left, right);
    StereoBlockOf(f, (left, right), frames[k]);
    var block := EncodeBlock(f, (left, right), frames[k]).0;
    assert ([6] + block)[1..] == block;
  }

  lemma {:induction false} StereoBlockOf(f: Format, ix: (index, index), frame: seq<sample>)
    requires f.tag == ImaAdpcm && f.channels == 2
    ensures EncodeBlock(f, ix, frame).0 == StereoBlock(frame, SamplesPerBlock(f), ix.0, ix.1)
  {
    hide StereoBlock, Last;
  }

  /** An MS block's opening samples and nibbles are those of the frame, in its order. */
  lemma {:induction false} MsFrame(frame: seq<sample>, channels: MsCodec.channelCount, spb: nat, n: nat)
    requires |frame| == channels * spb && spb >= 2 && n <= MsCodec.Wanted(channels, spb)
    ensures var v := MsCodec.Opening(frame, channels);
            MsBlocks.Samp2s(v) + MsBlocks.Samp1s(v) == frame[..2 * channels]
    ensures 2 * channels + n <= |frame| && MsCodec.Tail(frame, channels, n) == frame[2 * channels..2 * channels + n]
  {
    hide MsChoice.Choice, MsChoice.InitialDelta;
    if channels == 1 {
    } else {
      assert channels == 2;
    }
  }

  lemma {:induction false} MsHears(frame: seq<sample>, channels: MsCodec.channelCount, spb: nat, blockAlign: nat)
    requires |frame| == channels * spb && spb >= 2 && blockAlign >= 7 * channels
    ensures var v, m, n := MsCodec.Opening(frame, channels), 2 * channels, MsCodec.Count(channels, spb, blockAlign);
            m + n <= |frame| &&
            MsDecoder.MsDecoded(MsCodec.MsBlock(frame, channels, spb, blockAlign), channels, spb) ==
              frame[..m] + MsStream.Decoded(v, 0, MsStream.Quotients(v, 0, frame[m..m + n]))
  {
    hide *;
    CountFits(channels, spb, blockAlign);
    MsDecoder.MsRoundTrip(frame, channels, spb, blockAlign);
    MsFrame(frame, channels, spb, MsCodec.Count(channels, spb, blockAlign));
  }

  lemma {:induction false} CountFits(channels: MsCodec.channelCount, spb: nat, blockAlign: nat)
    requires blockAlign >= 7 * channels
    ensures MsCodec.Count(channels, spb, blockAlign) <= MsCodec.Wanted(channels, spb)
  {
  }

  /** And in MS blocks: the frame's first samples, and then the decoder's output for the
      samples that the block's bytes hold. */
  lemma {:induction false} MsHeard(f: Format, ix: (index, index), samples: seq<sample>, k: nat)
    requires f.tag == MsAdpcm && 1 <= f.channels <= 2 && f.blockAlign >= 7 * f.channels && SamplesPerBlock(f) >= 2
    requires SamplesPerFrame(f) > 0 && k < |Frames(samples, SamplesPerFrame(f))|
    ensures var frames, e, spb := Frames(samples, SamplesPerFrame(f)), Emit(f, ix, samples), SamplesPerBlock(f);
            && |e.sent| == 2 * |frames| && e.sent[2 * k + 1] != []
            && var v, m := MsCodec.Opening(frames[k], f.channels), 2 * f.channels;
               var n := MsCodec.Count(f.channels, spb, f.blockAlign);
               m + n <= |frames[k]| &&
               MsDecoder.MsDecoded(e.sent[2 * k + 1][1..], f.channels, spb) ==
                 frames[k][..m] + MsStream.Decoded(v, 0, MsStream.Quotients(v, 0, frames[k][m..m + n]))
  {
    hide *;
    FrameSize(f);
    var n, spb := SamplesPerFrame(f), SamplesPerBlock(f);
    var frames := Frames(samples, n);
    BlockMessages(f, ix, samples, k);
    FramesConserve(f, ix, samples);
    MsBlockOf(f, IndicesAt(f, ix, frames, k), frames[k]);
    MsHears(frames[k], f.channels, spb, f.blockAlign);
    var block := EncodeBlock(f, IndicesAt(f, ix, frames, k), frames[k]).0;
    assert ([6] + block)[1..] == block;
  }

  lemma {:induction false} MsBlockOf(f: Format, ix: (index, index), frame: seq<sample>)
    requires f.tag == MsAdpcm && 1 <= f.channels <= 2 && f.blockAlign >= 7 * f.channels
    ensures EncodeBlock(f, ix, frame).0 == MsCodec.MsBlock(frame, f.channels, SamplesPerBlock(f), f.blockAlign)
  {
    hide MsCodec.MsBlock;
  }

  // ---------- when the loop ends ----------

  /** The loop after at most so many passes. */
  function Passes(f: Format, ix: (index, index), samples: seq<sample>, passes: nat): Emission
    decreases passes
  {
    var n := SamplesPerFrame(f);
    if passes == 0 || |samples| < n then Emission(ix, [], samples)
    else
      var (block, ix') := EncodeBlock(f, ix, samples[..n]);
      var e := Passes(f, ix', samples[n..], passes - 1);
      e.(sent := Messages(block) + e.sent)
  }

  /** Less than a block is left after some number of passes. */
  ghost predicate LoopEnds(f: Format, ix: (index, index), samples: seq<sample>) {
    exists passes: nat :: |Passes(f, ix, samples, passes).rest| < SamplesPerFrame(f)
  }

  /** As many passes as there are samples are enough, and compute what the loop does. */
  lemma {:induction false} PassesSuffice(f: Format, ix: (index, index), samples: seq<sample>, passes: nat)
    requires SamplesPerFrame(f) > 0 && passes >= |samples|
    ensures Passes(f, ix, samples, passes) == Emit(f, ix, samples)
    decreases passes
  {
    hide EncodeBlock, SamplesPerFrame;
    var n := SamplesPerFrame(f);
    if |samples| >= n {
      PassesSuffice(f, EncodeBlock(f, ix, samples[..n]).1, samples[n..], passes - 1);
    }
  }

  /** The loop ends, whatever it is given, exactly when a block holds samples: for a
      format whose extra data states zero samples per block, or one without channels, it
      never does. */
  lemma {:induction false} EndsIff(f: Format, ix: (index, index), samples: seq<sample>)
    ensures LoopEnds(f, ix, samples) <==> f.channels > 0 && SamplesPerBlock(f) > 0
  {
    FrameHoldsSamples(f);
    hide *;
    if SamplesPerFrame(f) > 0 {
      PassesSuffice(f, ix, samples, |samples|);
      RestIsShort(f, ix, samples);
      EndsAfter(f, ix, samples, |samples|);
    } else {
      NeverEnds(f, ix, samples);
    }
  }

  lemma {:induction false} FrameHoldsSamples(f: Format)
    ensures SamplesPerFrame(f) > 0 <==> f.channels > 0 && SamplesPerBlock(f) > 0
  {
    hide SamplesPerBlock;
    if f.channels > 0 && SamplesPerBlock(f) > 0 {
      MulAtLeast(SamplesPerBlock(f), f.channels);
    }
  }

  lemma {:induction false} EndsAfter(f: Format, ix: (index, index), samples: seq<sample>, passes: nat)
    requires |Passes(f, ix, samples, passes).rest| < SamplesPerFrame(f)
    ensures LoopEnds(f, ix, samples)
  {
  }

  lemma {:induction false} NeverEnds(f: Format, ix: (index, index), samples: seq<sample>)
    requires SamplesPerFrame(f) == 0
    ensures !LoopEnds(f, ix, samples)
  {
  }

  /** Without extra data, the loop ends for every format that has channels. */
  lemma {:induction false} ComputedSizeEnds(f: Format)
    requires f.channels > 0 && |f.extraData| < 2
    ensures Ends(f)
  {
    MulAtLeast(SamplesPerBlock(f), f.channels);
  }

  /** Without extra data an IMA block has the size the format announces: always in mono,
      in stereo exactly when that size is a whole number of chunks. */
  lemma {:induction false} ImaBlockSize(f: Format, ix: (index, index), block: seq<sample>)
    requires f.tag == ImaAdpcm && |f.extraData| < 2 && 1 <= f.channels <= 2 && f.blockAlign >= 4 * f.channels
    ensures |EncodeBlock(f, ix, block).0| == f.blockAlign <==> f.channels == 1 || f.blockAlign % 8 == 0
  {
    hide MonoBlock, StereoBlock, Last;
  }

  /** Without extra data an MS block is full: its bytes hold exactly the nibbles asked
      for. */
  lemma {:induction false} MsBlockFull(f: Format)
    requires f.tag == MsAdpcm && |f.extraData| < 2 && 1 <= f.channels <= 2 && f.blockAlign >= 7 * f.channels
    ensures MsCodec.Wanted(f.channels, SamplesPerBlock(f)) == 2 * (f.blockAlign - 7 * f.channels)
    ensures MsCodec.Count(f.channels, SamplesPerBlock(f), f.blockAlign) == 2 * (f.blockAlign - 7 * f.channels)
  {
    assert f.channels == 1 || f.channels == 2;
  }

  // ---------- the handler ----------

  /** Samples of PCM bytes. */
  method ReadSamples(pcm: seq<byte>) returns (samples: seq<sample>)
    ensures samples == Samples(pcm)
  {
    samples := [];
    for i := 0 to |pcm| / 2
      invariant |samples| == i && samples == Samples(pcm)[..i]
    {
      samples := samples + [Int16(GetLe16(pcm[2 * i..]))];
    }
  }

  /** What is left to do after the messages done. */
  ghost predicate Continues(goal: Emission, done: seq<seq<byte>>, e: Emission) {
    goal == Emission(e.indices, done + e.sent, e.rest)
  }

  lemma {:induction false} Continued(e: Emission)
    ensures Continues(e, [], e)
  {
    assert [] + e.sent == e.sent;
  }

  lemma {:induction false} EmitStep(f: Format, ix: (index, index), samples: seq<sample>, goal: Emission, done: seq<seq<byte>>)
    requires 0 < SamplesPerFrame(f) <= |samples| && Continues(goal, done, Emit(f, ix, samples))
    ensures var n := SamplesPerFrame(f);
            var (block, ix') := EncodeBlock(f, ix, samples[..n]);
            Continues(goal, done + Messages(block), Emit(f, ix', samples[n..]))
  {
    hide EncodeBlock, SamplesPerFrame, Messages;
    var n := SamplesPerFrame(f);
    var (block, ix') := EncodeBlock(f, ix, samples[..n]);
    var e := Emit(f, ix', samples[n..]);
    assert done + (Messages(block) + e.sent) == done + Messages(block) + e.sent;
  }

  lemma {:induction false} EmitEnd(f: Format, ix: (index, index), samples: seq<sample>, goal: Emission, done: seq<seq<byte>>)
    requires |samples| < SamplesPerFrame(f) && Continues(goal, done, Emit(f, ix, samples))
    ensures goal == Emission(ix, done, samples)
  {
    assert done + [] == done;
  }

  /** sent is the log of what was handed to the channel. */
  class Handler {
    var recording: bool
    var activeFormat: Format
    var stepIndex0: index
    var stepIndex1: index
    var pendingSamples: seq<sample>
    var sent: seq<seq<byte>>

    ghost function Contents(): State
      reads this
    {
      State(recording, activeFormat, (stepIndex0, stepIndex1), pendingSamples, sent)
    }

    method SendMessages(payload: seq<byte>)
      modifies this`sent
      ensures sent == old(sent) + Messages(payload)
    {
      sent := sent + [[MSG_DATA_INCOMING]];
      sent := sent + [[MSG_DATA] + payload];
    }

    method EncodeIMAADPCM(samples: seq<sample>, channels: nat, samplesPerBlock: nat) returns (dst: seq<byte>)
      modifies this`stepIndex0, this`stepIndex1
      ensures (dst, (stepIndex0, stepIndex1)) == ImaBlock(samples, channels, samplesPerBlock, old((stepIndex0, stepIndex1)))
    {
      hide MonoBlock, StereoBlock, Last;
      if channels == 1 {
        var buf := new byte[4 + samplesPerBlock / 2];
        stepIndex0 := EncodeMono(samples, samplesPerBlock, stepIndex0, buf);
        dst := buf[..];
      } else if channels == 2 {
        var buf := new byte[8 + 8 * Chunks(samplesPerBlock)];
        stepIndex0, stepIndex1 := EncodeStereo(samples, samplesPerBlock, stepIndex0, stepIndex1, buf);
        dst := buf[..];
      } else {
        dst := [];
      }
    }

    method EncodeFrame(block: seq<sample>) returns (payload: seq<byte>)
      modifies this`stepIndex0, this`stepIndex1
      ensures (payload, (stepIndex0, stepIndex1)) == EncodeBlock(activeFormat, old((stepIndex0, stepIndex1)), block)
    {
      hide ImaBlock, MsCodec.MsBlock, SamplesPerBlock;
      var f := activeFormat;
      var samplesPerBlock := SamplesPerBlock(f);
      if f.tag == ImaAdpcm {
        payload := EncodeIMAADPCM(block, f.channels, samplesPerBlock);
      } else if 1 <= f.channels <= 2 && f.blockAlign >= 7 * f.channels {
        var buf := new byte[f.blockAlign](_ => 0);
        MsCodec.EncodeMs(block, f.channels, samplesPerBlock, f.blockAlign, buf);
        payload := buf[..];
      } else {
        payload := [];
      }
    }

    method SendBlocks(samples: seq<sample>) returns (leftover: seq<sample>)
      requires SamplesPerFrame(activeFormat) > 0
      modifies this`stepIndex0, this`stepIndex1, this`sent
      ensures var e := Emit(activeFormat, old((stepIndex0, stepIndex1)), samples);
              leftover == e.rest && (stepIndex0, stepIndex1) == e.indices && sent == old(sent) + e.sent
    {
      hide *;
      ghost var f, ix, before := activeFormat, (stepIndex0, stepIndex1), sent;
      ghost var done: seq<seq<byte>> := [];
      var n := SamplesPerFrame(activeFormat);
      leftover := samples;
      Continued(Emit(f, ix, samples));
      assert sent + [] == sent;
      while |leftover| >= n
        invariant sent == before + done
        invariant Continues(Emit(f, ix, samples), done, Emit(f, (stepIndex0, stepIndex1), leftover))
        decreases |leftover|
      {
        EmitStep(f, (stepIndex0, stepIndex1), leftover, Emit(f, ix, samples), done);
        var payload := EncodeFrame(leftover[..n]);
        SendMessages(payload);
        leftover := leftover[n..];
        done := done + Messages(payload);
      }
      EmitEnd(f, (stepIndex0, stepIndex1), leftover, Emit(f, ix, samples), done);
    }

    method SendAudioData(pcm: seq<byte>)
      requires Ends(activeFormat)
      modifies this
      ensures Contents() == Send(old(Contents()), pcm)
    {
      hide Emit, SamplesPerFrame;
      if !recording || pcm == [] {
        return;
      }
      if activeFormat.tag == Pcm {
        SendMessages(pcm);
        return;
      }
      var samples := ReadSamples(pcm);
      if pendingSamples != [] {
        samples := pendingSamples + samples;
        pendingSamples := [];
      } else {
        assert pendingSamples + samples == samples;
      }
      pendingSamples := SendBlocks(samples);
    }
  }
}
