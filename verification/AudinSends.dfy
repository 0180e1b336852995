/** Audio input in plain numbers: samples from bytes, block sizes, messages, and the step
    indices carried from block to block. */
module AudinSends {
  import opened Bits
  import opened Wire
  import opened Pcm
  import opened Ima
  import opened ImaBlocks
  import opened Audin
  import AdpcmBytes
  import MsCodec

  /** Two bytes a sample, low byte first, two's complement; an odd last byte is dropped. */
  lemma {:induction false} SamplesRead(pcm: seq<byte>, k: nat)
    ensures |Samples(pcm)| == |pcm| / 2
    ensures k < |pcm| / 2 ==> WordIs(pcm, 2 * k, (Samples(pcm)[k] as int) % 0x1_0000)
  {
    if k < |pcm| / 2 {
      assert pcm[2 * k..][0] == pcm[2 * k] && pcm[2 * k..][1] == pcm[2 * k + 1];
    }
  }

  /** Samples in a block: what two bytes of extra data say, else what the block's bytes hold
      after its header, else what the header holds. */
  lemma {:induction false} BlockHolds(f: Format)
    requires f.channels <= 2
    ensures var n, spb := f.blockAlign, SamplesPerBlock(f);
            if f.tag == Audin.Tag.Pcm then spb == 1
            else if |f.extraData| >= 2 then spb == (f.extraData[0] as int) + 256 * (f.extraData[1] as int)
            else if f.tag == ImaAdpcm then
              if f.channels <= 1 then spb == (if n < 4 then 1 else 2 * n - 7) else spb == (if n < 8 then 1 else (n - 8) / 8 * 8 + 1)
            else
              if f.channels <= 1 then spb == (if n < 7 then 2 else 2 * n - 12) else spb == (if n < 14 then 2 else n - 12)
    ensures SamplesPerFrame(f) == f.channels * SamplesPerBlock(f)
  {
    FrameSize(f);
    if f.tag == ImaAdpcm && f.channels == 2 && f.blockAlign >= 8 {
      assert (f.blockAlign - 8) / 2 / 4 == (f.blockAlign - 8) / 8;
    }
    hide SamplesPerFrame;
  }

  /** Nothing is put into a block for no channel or more than two, or for a block too short
      for its header. */
  lemma {:induction false} EmptyBlocks(f: Format, ix: (index, index), block: seq<sample>)
    requires f.tag != Audin.Tag.Pcm
    requires f.channels == 0 || f.channels > 2 || (f.tag == Audin.Tag.MsAdpcm && f.blockAlign < 7 * f.channels)
    ensures EncodeBlock(f, ix, block) == ([], ix)
  {
    hide MonoBlock, StereoBlock, MsCodec.MsBlock;
  }

  /** Sound in PCM is sent as it comes; and nothing happens while not recording or without
      sound. */
  lemma {:induction false} PcmSent(s: State, pcm: seq<byte>)
    requires Ends(s.format)
    ensures !s.recording || pcm == [] ==> Send(s, pcm) == s
    ensures s.recording && pcm != [] && s.format.tag == Audin.Tag.Pcm ==>
              Send(s, pcm) == State(true, s.format, s.indices, s.pending, s.sent + [[5], [6] + pcm])
  {
    MessagesAre(pcm);
    hide Emit, SamplesPerFrame, Messages;
  }

  /** Any other sound is added to what waits; what is sent and what waits then are the blocks
      of both and the rest. */
  lemma {:induction false} BlocksSent(s: State, pcm: seq<byte>)
    requires s.recording && pcm != [] && s.format.tag != Audin.Tag.Pcm && SamplesPerFrame(s.format) > 0
    ensures Ends(s.format)
    ensures var e := Emit(s.format, s.indices, s.pending + Samples(pcm));
            Send(s, pcm) == State(true, s.format, e.indices, e.rest, s.sent + e.sent)
  {
    hide Emit, SamplesPerFrame, Samples;
  }

  // ---------- the indices ----------

  lemma {:induction false} IndicesNext(f: Format, ix: (index, index), frames: seq<seq<sample>>, k: nat)
    requires k < |frames|
    ensures IndicesAt(f, ix, frames, 0) == ix
    ensures IndicesAt(f, ix, frames, k + 1) == EncodeBlock(f, IndicesAt(f, ix, frames, k), frames[k]).1
    decreases k
  {
    hide *;
    IndicesStep(f, ix, frames, 0);
    IndicesStep(f, ix, frames, k);
    IndicesStep(f, ix, frames, k + 1);
    var ix' := EncodeBlock(f, ix, frames[0]).1;
    if k > 0 {
      IndicesNext(f, ix', frames[1..], k - 1);
    } else {
      IndicesStep(f, ix', frames[1..], 0);
    }
  }

  /** A mono block starts where the samples of the last one left its index. */
  lemma {:induction false} MonoCarries(f: Format, ix: (index, index), frames: seq<seq<sample>>, k: nat, i: index, j: index, frame: seq<sample>)
    requires f.tag == ImaAdpcm && f.channels == 1 && k < |frames| && frame == frames[k] && |frame| == SamplesPerBlock(f) > 0
    requires IndicesAt(f, ix, frames, k) == (i, j)
    ensures var c := Channel(frame[0], i);
            IndicesAt(f, ix, frames, k + 1) == (Ima.After(c, Nibbles(c, frame[1..])).index, j)
  {
    hide *;
    IndicesNext(f, ix, frames, k);
    MonoLeaves(f, (i, j), frame);
  }

  lemma {:induction false} MonoLeaves(f: Format, ix: (index, index), frame: seq<sample>)
    requires f.tag == ImaAdpcm && f.channels == 1 && |frame| == SamplesPerBlock(f) > 0
    ensures var c := Channel(frame[0], ix.0);
            EncodeBlock(f, ix, frame).1 == (Ima.After(c, Nibbles(c, frame[1..])).index, ix.1)
  {
    hide SamplesPerBlock, MonoBlock, Nibbles, Ima.After, Plane;
    PlaneOfFrame(frame);
  }

  lemma {:induction false} PlaneOfFrame(frame: seq<sample>)
    requires |frame| > 0
    ensures Plane(frame, 1, 0, |frame| - 1) == frame[1..]
  {
  }

  /** A stereo block starts where the last one left both indices, the silence that fills up
      its last group counted. */
  lemma {:induction false} StereoCarries(f: Format, ix: (index, index), frames: seq<seq<sample>>, k: nat, i: index, j: index, frame: seq<sample>, l: seq<sample>, r: seq<sample>)
    requires f.tag == ImaAdpcm && f.channels == 2 && k < |frames| && frame == frames[k] && |frame| == 2 * SamplesPerBlock(f) > 0
    requires IndicesAt(f, ix, frames, k) == (i, j)
    requires |l| == |r| == (SamplesPerBlock(f) + 6) / 8 * 8
    requires forall n :: 0 <= n < |l| ==> l[n] == if 2 * n + 3 < |frame| then frame[2 * n + 2] else 0
    requires forall n :: 0 <= n < |r| ==> r[n] == if 2 * n + 3 < |frame| then frame[2 * n + 3] else 0
    ensures var c0, c1 := Channel(frame[0], i), Channel(frame[1], j);
            IndicesAt(f, ix, frames, k + 1) == (Ima.After(c0, Nibbles(c0, l)).index, Ima.After(c1, Nibbles(c1, r)).index)
  {
    hide *;
    IndicesNext(f, ix, frames, k);
    AdpcmBytes.GroupCount(SamplesPerBlock(f), |l|);
    AdpcmBytes.StereoPlane(frame, 0, |l|, l);
    AdpcmBytes.StereoPlane(frame, 1, |r|, r);
    StereoLeaves(f, (i, j), frame);
  }

  lemma {:induction false} StereoLeaves(f: Format, ix: (index, index), frame: seq<sample>)
    requires f.tag == ImaAdpcm && f.channels == 2 && |frame| >= 2
    ensures var c0, c1, n := Channel(frame[0], ix.0), Channel(frame[1], ix.1), 8 * Chunks(SamplesPerBlock(f));
            EncodeBlock(f, ix, frame).1 == (Ima.After(c0, Nibbles(c0, Plane(frame, 2, 0, n))).index, Ima.After(c1, Nibbles(c1, Plane(frame, 2, 1, n))).index)
  {
    FirstIs(frame, 0, ix.0);
    FirstIs(frame, 1, ix.1);
    hide SamplesPerBlock, StereoBlock, Nibbles, Ima.After, Plane, First;
  }
}
