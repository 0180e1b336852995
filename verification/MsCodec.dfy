/** The MS-ADPCM block loops of the audio-input encoder and the audio-output decoder. */
module MsCodec {
  import opened Bits
  import opened Wire
  import opened Pcm
  import opened MsChoice
  import opened MsStream
  import opened MsBlocks
  import MsAdpcm

  function Samp1(samples: seq<sample>, channels: nat, ch: nat): sample
    requires ch < channels
  {
    if |samples| / channels > 1 then SampleAt(samples, channels, ch, 1) else SampleAt(samples, channels, ch, 0)
  }

  function OpeningVoice(samples: seq<sample>, channels: nat, ch: nat): MsAdpcm.Voice
    requires ch < channels
  {
    MsAdpcm.Voice(InitialDelta(samples, channels, ch), Samp1(samples, channels, ch), SampleAt(samples, channels, ch, 0))
  }

  /** The state that the block header carries. */
  function Opening(samples: seq<sample>, channels: nat): (v: Voices)
    requires channels > 0
    ensures Writable(v) && |v.vs| == channels && Mixed(v, 0)
  {
    Voices(seq(channels, ch requires 0 <= ch < channels => Choice(samples, channels, ch)),
           seq(channels, ch requires 0 <= ch < channels => OpeningVoice(samples, channels, ch)))
  }

  type channelCount = n: nat | 1 <= n <= 2 witness 1

  /** The k-th sample after the header's two per channel, channels in turn. */
  function TailAt(samples: seq<sample>, channels: channelCount, k: nat): sample {
    if channels == 1 then SampleAt(samples, 1, 0, 2 + k) else SampleAt(samples, 2, k % 2, 2 + k / 2)
  }

  function Tail(samples: seq<sample>, channels: channelCount, n: nat): (ss: seq<sample>)
    ensures |ss| == n
  {
    seq(n, k requires 0 <= k < n => TailAt(samples, channels, k))
  }

  /** Nibbles that a block of spb samples per channel asks for. */
  function Wanted(channels: channelCount, spb: nat): nat { if spb < 2 then 0 else if channels == 1 then spb - 2 else 2 * (spb - 2) }

  /** Nibbles in a block: those asked for, as far as its bytes go. */
  function Count(channels: channelCount, spb: nat, blockAlign: nat): nat
    requires blockAlign >= 7 * channels
  {
    Least(2 * (blockAlign - 7 * channels), Wanted(channels, spb))
  }

  function Zeroes(n: nat): (z: seq<byte>)
    ensures |z| == n
  {
    seq(n, _ => 0)
  }

  /** The nibbles of the first n samples of the tail. */
  function TailNibbles(samples: seq<sample>, channels: channelCount, n: nat): (qs: seq<quotient>)
    ensures |qs| == n
  {
    Quotients(Opening(samples, channels), 0, Tail(samples, channels, n))
  }

  function MsBlock(samples: seq<sample>, channels: channelCount, spb: nat, blockAlign: nat): (block: seq<byte>)
    requires blockAlign >= 7 * channels
    ensures |block| == blockAlign
  {
    var n := Count(channels, spb, blockAlign);
    Header(Opening(samples, channels)) + PackHigh(TailNibbles(samples, channels, n)) + Zeroes(blockAlign - 7 * channels - (n + 1) / 2)
  }

  // ---------- the encoding loop ----------

  /** The encoder's channels after n nibbles. */
  ghost predicate Reached(samples: seq<sample>, channels: channelCount, n: nat, v: Voices, ch: nat) {
    && Mixed(v, ch) && |v.vs| == channels && ch == ChannelAt(0, channels, n)
    && v == After(Opening(samples, channels), 0, TailNibbles(samples, channels, n))
  }

  method WriteHeader(samples: seq<sample>, channels: channelCount, dst: array<byte>) returns (v: Voices, off: nat)
    requires dst.Length >= 7 * channels
    modifies dst
    ensures v == Opening(samples, channels) && off == 7 * channels
    ensures dst[..off] == Header(v) && forall k :: off <= k < dst.Length ==> dst[k] == old(dst[k])
  {
    var deltas, samp1, samp2;
    v, deltas, samp1, samp2 := Openings(samples, channels);
    HeaderIs(v);
    assert dst[..0] == [];
    hide *;
    off := Put(dst, 0, Pairs(v.cis));
    off := PutWords(dst, off, deltas);
    off := PutWords(dst, off, samp1);
    off := PutWords(dst, off, samp2);
    assert [] + Pairs(v.cis) == Pairs(v.cis);
  }

  lemma {:induction false} HeaderIs(v: Voices)
    requires Writable(v)
    ensures Header(v) == Pairs(v.cis) + Words(Deltas(v)) + Words(Samp1s(v)) + Words(Samp2s(v))
  {
  }

  method PutWords(dst: array<byte>, off: nat, ws: seq<sample>) returns (off': nat)
    requires off + 2 * |ws| <= dst.Length
    modifies dst
    ensures off' == off + 2 * |ws| && dst[..off'] == old(dst[..off]) + Words(ws)
    ensures forall k :: off' <= k < dst.Length ==> dst[k] == old(dst[k])
  {
    off' := off;
    assert Words([]) == [];
    assert dst[..off] == dst[..off] + [];
    for ch := 0 to |ws|
      invariant off' == off + 2 * ch && dst[..off'] == old(dst[..off]) + Words(ws[..ch])
      invariant forall k :: off' <= k < dst.Length ==> dst[k] == old(dst[k])
    {
      WordsSnoc(ws[..ch], ws[ch]);
      assert ws[..ch + 1] == ws[..ch] + [ws[ch]];
      off' := Put(dst, off', PutLe16(Word(ws[ch])));
    }
    assert ws[..|ws|] == ws;
  }

  /** Pair, step and first samples of every channel. */
  method Openings(samples: seq<sample>, channels: channelCount)
    returns (v: Voices, deltas: seq<sample>, samp1: seq<sample>, samp2: seq<sample>)
    ensures v == Opening(samples, channels) && deltas == Deltas(v) && samp1 == Samp1s(v) && samp2 == Samp2s(v)
  {
    hide Choice, InitialDelta;
    v, deltas, samp1, samp2 := Voices([], []), [], [], [];
    var nSamples := |samples| / channels;
    for ch := 0 to channels
      invariant |v.cis| == |v.vs| == |deltas| == |samp1| == |samp2| == ch
      invariant forall k :: 0 <= k < ch ==> v.cis[k] == Choice(samples, channels, k)
      invariant forall k :: 0 <= k < ch ==> v.vs[k] == MsAdpcm.Voice(deltas[k], samp1[k], samp2[k]) == OpeningVoice(samples, channels, k)
    {
      var ci := ChooseCoefficient(samples, ch, channels, nSamples);
      var delta := ComputeInitialDelta(samples, ch, channels, nSamples);
      var s1, s2;
      s1, s2 := FirstTwo(samples, channels, ch, nSamples);
      v := Voices(v.cis + [ci], v.vs + [MsAdpcm.Voice(delta, s1, s2)]);
      deltas, samp1, samp2 := deltas + [delta], samp1 + [s1], samp2 + [s2];
    }
  }

  method FirstTwo(samples: seq<sample>, channels: nat, ch: nat, nSamples: nat) returns (s1: sample, s2: sample)
    requires ch < channels && Counted(samples, channels, nSamples)
    ensures s1 == Samp1(samples, channels, ch) && s2 == SampleAt(samples, channels, ch, 0)
  {
    s1, s2 := 0, 0;
    if nSamples > 1 {
      InterleavedIndex(|samples|, channels, ch, 1);
      s1 := samples[1 * channels + ch];
    } else if nSamples > 0 {
      s1 := samples[ch];
    }
    if nSamples > 0 {
      s2 := samples[ch];
    }
  }

  /** The bytes of the first n nibbles of the tail. */
  function Packed(samples: seq<sample>, channels: channelCount, n: nat): (bytes: seq<byte>)
    ensures |bytes| == (n + 1) / 2
  {
    PackHigh(TailNibbles(samples, channels, n))
  }

  /** Where the loop stands after n nibbles. */
  ghost predicate Placed(channels: channelCount, n: nat, ch: nat, sampleIdx: nat, off: nat) {
    && off == 7 * channels + n / 2
    && if channels == 1 then ch == 0 && sampleIdx == 2 + n else ch == n % 2 && sampleIdx == 2 + n / 2
  }

  /** The loop goes on exactly while nibbles are asked for and fit. */
  lemma {:induction false} GoesOn(channels: channelCount, n: nat, ch: nat, sampleIdx: nat, off: nat, spb: nat, blockAlign: nat)
    requires Placed(channels, n, ch, sampleIdx, off) && blockAlign >= 7 * channels && n <= Count(channels, spb, blockAlign)
    ensures sampleIdx < spb && off < blockAlign <==> n < Count(channels, spb, blockAlign)
    ensures off <= blockAlign && (n % 2 == 1 ==> off < blockAlign)
  {
  }

  /** One nibble of the loop. */
  method NextNibble(samples: seq<sample>, channels: channelCount, ghost n: nat, v: Voices, ch: nat, sampleIdx: nat)
    returns (nib: quotient, v': Voices, ch': nat)
    requires Reached(samples, channels, n, v, ch)
    requires exists off :: Placed(channels, n, ch, sampleIdx, off)
    ensures Reached(samples, channels, n + 1, v', ch')
    ensures if channels == 1 then ch' == 0 else ch' == 1 - ch
    ensures TailNibbles(samples, channels, n + 1) == TailNibbles(samples, channels, n) + [nib]
  {
    hide Quotients, After, MsAdpcm.Encode, MsAdpcm.Decode, Opening;
    var s: sample := 0;
    if sampleIdx < |samples| / channels {
      InterleavedIndex(|samples|, channels, ch, sampleIdx);
      s := samples[sampleIdx * channels + ch];
    }
    assert s == TailAt(samples, channels, n);
    hide SampleAt, TailAt;
    var voice := v.vs[ch];
    var delta, samp1, samp2;
    nib, delta, samp1, samp2 := MsAdpcm.EncodeNibble(s, voice.delta, voice.samp1, voice.samp2, v.cis[ch]);
    v' := v.(vs := v.vs[ch := MsAdpcm.Voice(delta, samp1, samp2)]);
    ch' := if ch + 1 == channels then 0 else ch + 1;
    TailStep(samples, channels, n, v, ch, nib);
  }

  lemma {:induction false} TailStep(samples: seq<sample>, channels: channelCount, n: nat, v: Voices, ch: nat, nib: quotient)
    requires Reached(samples, channels, n, v, ch) && nib == MsAdpcm.Encode(v.cis[ch], v.vs[ch], TailAt(samples, channels, n))
    ensures TailNibbles(samples, channels, n + 1) == TailNibbles(samples, channels, n) + [nib]
    ensures Reached(samples, channels, n + 1, Update(v, ch, nib), Turn(ch, channels))
  {
    hide Quotients, After, MsAdpcm.Encode, MsAdpcm.Decode, Opening, TailAt;
    assert Tail(samples, channels, n + 1) == Tail(samples, channels, n) + [TailAt(samples, channels, n)];
    QuotientsSnoc(Opening(samples, channels), 0, Tail(samples, channels, n), TailAt(samples, channels, n));
    AfterSnoc(Opening(samples, channels), 0, TailNibbles(samples, channels, n), nib);
  }

  /** The loop's buffer: the bytes up to the cursor and the byte under construction are
      the header and the nibbles so far. */
  ghost predicate Written(done: seq<byte>, currentByte: byte, h: seq<byte>, samples: seq<sample>, channels: channelCount, n: nat) {
    if n % 2 == 0 then done == h + Packed(samples, channels, n) else done + [currentByte] == h + Packed(samples, channels, n)
  }

  lemma {:induction false} WriteOpen(done: seq<byte>, currentByte: byte, h: seq<byte>, samples: seq<sample>, channels: channelCount, n: nat, nib: quotient)
    requires n % 2 == 0 && Written(done, currentByte, h, samples, channels, n)
    requires TailNibbles(samples, channels, n + 1) == TailNibbles(samples, channels, n) + [nib]
    ensures Written(done, Byte(0, Unsigned(nib)), h, samples, channels, n + 1)
  {
    OpenByte(done, h, TailNibbles(samples, channels, n), nib);
    hide TailNibbles, PackHigh, Byte, Unsigned;
    assert (n + 1) % 2 == 1;
  }

  lemma {:induction false} WriteClose(done: seq<byte>, currentByte: byte, h: seq<byte>, samples: seq<sample>, channels: channelCount, n: nat, nib: quotient)
    requires n % 2 == 1 && Written(done, currentByte, h, samples, channels, n)
    requires TailNibbles(samples, channels, n + 1) == TailNibbles(samples, channels, n) + [nib]
    ensures var full := Byte(Unsigned(nib), currentByte / 16);
            full == currentByte + Unsigned(nib) && Written(done + [full], full, h, samples, channels, n + 1)
  {
    CloseByte(done, currentByte, h, TailNibbles(samples, channels, n), nib);
    hide TailNibbles, PackHigh, Byte, Unsigned;
    assert (n + 1) % 2 == 0;
  }

  lemma {:induction false} OpenByte(done: seq<byte>, h: seq<byte>, qs: seq<quotient>, nib: quotient)
    requires |qs| % 2 == 0 && done == h + PackHigh(qs)
    ensures done + [Byte(0, Unsigned(nib))] == h + PackHigh(qs + [nib])
  {
    hide PackHigh, Byte;
    PackHighSnoc(qs, nib);
  }

  lemma {:induction false} CloseByte(done: seq<byte>, currentByte: byte, h: seq<byte>, qs: seq<quotient>, nib: quotient)
    requires |qs| % 2 == 1 && done + [currentByte] == h + PackHigh(qs)
    ensures var full := Byte(Unsigned(nib), currentByte / 16);
            full == currentByte + Unsigned(nib) && done + [full] == h + PackHigh(qs + [nib])
  {
    hide PackHigh;
    var p := PackHigh(qs);
    PackHighSnoc(qs, nib);
    LastByte(done, currentByte, h, p);
    assert Byte(Unsigned(nib), p[|p| - 1] / 16) == currentByte + Unsigned(nib);
  }

  lemma {:induction false} LastByte(done: seq<byte>, last: byte, h: seq<byte>, p: seq<byte>)
    requires |p| > 0 && done + [last] == h + p
    ensures last == p[|p| - 1] && done == h + p[..|p| - 1]
  {
    assert (done + [last])[|done|] == last;
    assert (h + p)[..|done|] == done;
  }

  /** Put one nibble into the byte under construction, and full bytes into the buffer. */
  method Emit(dst: array<byte>, off: nat, currentByte: byte, ghost h: seq<byte>, ghost samples: seq<sample>, ghost channels: channelCount, n: nat, nib: quotient)
    returns (off': nat, currentByte': byte)
    requires off < dst.Length && Written(dst[..off], currentByte, h, samples, channels, n)
    requires TailNibbles(samples, channels, n + 1) == TailNibbles(samples, channels, n) + [nib]
    modifies dst
    ensures off' == (if n % 2 == 0 then off else off + 1) && Written(dst[..off'], currentByte', h, samples, channels, n + 1)
    ensures forall k :: off' <= k < dst.Length ==> dst[k] == old(dst[k])
  {
    hide Written, TailNibbles;
    off' := off;
    if n % 2 == 0 {
      WriteOpen(dst[..off], currentByte, h, samples, channels, n, nib);
      currentByte' := Byte(0, Unsigned(nib));
    } else {
      WriteClose(dst[..off], currentByte, h, samples, channels, n, nib);
      currentByte' := currentByte + Unsigned(nib);
      off' := Put(dst, off, [currentByte']);
    }
  }

  /** One pass of the loop. */
  method EncodeOne(samples: seq<sample>, channels: channelCount, n: nat, v: Voices, ch: nat, sampleIdx: nat,
                   dst: array<byte>, off: nat, currentByte: byte, ghost h: seq<byte>)
    returns (v': Voices, ch': nat, sampleIdx': nat, off': nat, currentByte': byte)
    requires Placed(channels, n, ch, sampleIdx, off) && off < dst.Length
    requires Reached(samples, channels, n, v, ch) && Written(dst[..off], currentByte, h, samples, channels, n)
    modifies dst
    ensures Placed(channels, n + 1, ch', sampleIdx', off') && off <= off' <= dst.Length
    ensures Reached(samples, channels, n + 1, v', ch') && Written(dst[..off'], currentByte', h, samples, channels, n + 1)
    ensures forall k :: off' <= k < dst.Length ==> dst[k] == old(dst[k])
  {
    hide *;
    var nib;
    nib, v', ch' := NextNibble(samples, channels, n, v, ch, sampleIdx);
    off', currentByte' := Emit(dst, off, currentByte, h, samples, channels, n, nib);
    sampleIdx' := sampleIdx;
    if channels == 2 {
      if ch' == 0 {
        sampleIdx' := sampleIdx + 1;
      }
    } else {
      sampleIdx' := sampleIdx + 1;
    }
    MovesOn(channels, n, ch, sampleIdx, off, ch', sampleIdx', off');
  }

  method EncodeMs(samples: seq<sample>, channels: channelCount, samplesPerBlock: nat, blockAlign: nat, dst: array<byte>)
    requires dst.Length == blockAlign >= 7 * channels
    requires forall i :: 0 <= i < dst.Length ==> dst[i] == 0
    modifies dst
    ensures dst[..] == MsBlock(samples, channels, samplesPerBlock, blockAlign)
  {
    hide *;
    var v, off := WriteHeader(samples, channels, dst);
    EncodingStarts(samples, channels, dst[..off]);
    EncodeTail(samples, channels, samplesPerBlock, blockAlign, dst, v, off, dst[..off]);
  }

  method EncodeTail(samples: seq<sample>, channels: channelCount, samplesPerBlock: nat, blockAlign: nat,
                    dst: array<byte>, v0: Voices, off0: nat, ghost h: seq<byte>)
    requires dst.Length == blockAlign >= 7 * channels && off0 == 7 * channels
    requires forall i :: off0 <= i < dst.Length ==> dst[i] == 0
    requires Writable(Opening(samples, channels)) && h == Header(Opening(samples, channels))
    requires Reached(samples, channels, 0, v0, 0) && Written(dst[..off0], 0, h, samples, channels, 0)
    modifies dst
    ensures dst[..] == MsBlock(samples, channels, samplesPerBlock, blockAlign)
  {
    hide *;
    ghost var count := Count(channels, samplesPerBlock, blockAlign);
    var v := v0;
    var off: nat := off0;
    var ch: nat, sampleIdx: nat, nibbleCount: nat, currentByte: byte := 0, 2, 0, 0;
    PlacedFirst(channels);
    GoesOn(channels, 0, ch, sampleIdx, off, samplesPerBlock, blockAlign);
    while sampleIdx < samplesPerBlock && off < blockAlign
      invariant nibbleCount <= count && Placed(channels, nibbleCount, ch, sampleIdx, off) && off <= blockAlign
      invariant Reached(samples, channels, nibbleCount, v, ch)
      invariant Written(dst[..off], currentByte, h, samples, channels, nibbleCount)
      invariant forall k :: off <= k < dst.Length ==> dst[k] == 0
      decreases count - nibbleCount
    {
      GoesOn(channels, nibbleCount, ch, sampleIdx, off, samplesPerBlock, blockAlign);
      v, ch, sampleIdx, off, currentByte := EncodeOne(samples, channels, nibbleCount, v, ch, sampleIdx, dst, off, currentByte, h);
      nibbleCount := nibbleCount + 1;
    }
    GoesOn(channels, nibbleCount, ch, sampleIdx, off, samplesPerBlock, blockAlign);
    Flush(dst, off, currentByte, h, samples, channels, nibbleCount);
    BlockIs(samples, channels, samplesPerBlock, blockAlign, ch, sampleIdx, off);
  }

  lemma {:induction false} PlacedFirst(channels: channelCount)
    ensures Placed(channels, 0, 0, 2, 7 * channels)
  {
  }

  lemma {:induction false} MovesOn(channels: channelCount, n: nat, ch: nat, sampleIdx: nat, off: nat, ch': nat, sampleIdx': nat, off': nat)
    requires Placed(channels, n, ch, sampleIdx, off) && off' == (if n % 2 == 0 then off else off + 1)
    requires if channels == 1 then ch' == 0 else ch' == 1 - ch
    requires sampleIdx' == if channels == 2 && ch' != 0 then sampleIdx else sampleIdx + 1
    ensures Placed(channels, n + 1, ch', sampleIdx', off')
  {
  }

  lemma {:induction false} BlockIs(samples: seq<sample>, channels: channelCount, spb: nat, blockAlign: nat, ch: nat, sampleIdx: nat, off: nat)
    requires blockAlign >= 7 * channels && Placed(channels, Count(channels, spb, blockAlign), ch, sampleIdx, off)
    ensures var n := Count(channels, spb, blockAlign);
            && off + n % 2 <= blockAlign
            && MsBlock(samples, channels, spb, blockAlign) ==
                 Header(Opening(samples, channels)) + Packed(samples, channels, n) + Zeroes(blockAlign - off - n % 2)
  {
    hide Header, Opening, TailNibbles, PackHigh, Zeroes;
  }

  /** Flush the last nibble if their number is odd: the block is complete. */
  method Flush(dst: array<byte>, off: nat, currentByte: byte, ghost h: seq<byte>, ghost samples: seq<sample>, ghost channels: channelCount, n: nat)
    requires off <= dst.Length && Written(dst[..off], currentByte, h, samples, channels, n) && (n % 2 == 1 ==> off < dst.Length)
    requires forall k :: off <= k < dst.Length ==> dst[k] == 0
    modifies dst
    ensures dst[..] == h + Packed(samples, channels, n) + Zeroes(dst.Length - off - n % 2)
  {
    hide Packed;
    var end := off;
    if n % 2 != 0 && off < dst.Length {
      end := Put(dst, off, [currentByte]);
    }
    assert dst[..end] == h + Packed(samples, channels, n);
    assert dst[end..] == Zeroes(dst.Length - end);
    assert dst[..] == dst[..end] + dst[end..];
  }

  lemma {:induction false} EncodingStarts(samples: seq<sample>, channels: channelCount, h: seq<byte>)
    ensures Reached(samples, channels, 0, Opening(samples, channels), 0)
    ensures forall b: byte :: Written(h, b, h, samples, channels, 0)
  {
  }
}
