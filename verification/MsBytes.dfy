/** MS-ADPCM blocks byte by byte: what the encoder writes where, and what the decoder makes
    of any bytes. */
module MsBytes {
  import opened Bits
  import opened Wire
  import opened Pcm
  import opened MsChoice
  import opened MsStream
  import opened MsBlocks
  import opened MsCodec
  import opened MsDecoder
  import MsAdpcm

  // ---------- nibble by nibble ----------

  lemma {:induction false} TurnsRound(channels: nat, k: nat)
    requires channels > 0
    ensures ChannelAt(0, channels, k) == k % channels
  {
    hide *;
    TurnIs(channels, k);
    if k == 0 {
      DivisionUnique(0, channels, 0, 0);
    } else {
      TurnsRound(channels, k - 1);
      NextTurn(channels, k - 1);
    }
  }

  lemma {:induction false} TurnIs(channels: nat, k: nat)
    requires channels > 0
    ensures ChannelAt(0, channels, k) == if k == 0 then 0 else Turn(ChannelAt(0, channels, k - 1), channels)
    ensures k > 0 ==> Turn(ChannelAt(0, channels, k - 1), channels) == if ChannelAt(0, channels, k - 1) + 1 == channels then 0 else ChannelAt(0, channels, k - 1) + 1
  {
  }

  lemma {:induction false} NextTurn(channels: nat, k: nat)
    requires channels > 0
    ensures (k + 1) % channels == if k % channels + 1 == channels then 0 else k % channels + 1
  {
    var q, r := k / channels, k % channels;
    assert k == q * channels + r;
    if r + 1 == channels {
      assert (q + 1) * channels == q * channels + channels;
      DivisionUnique(k + 1, channels, q + 1, 0);
    } else {
      DivisionUnique(k + 1, channels, q, r + 1);
    }
  }

  /** Channels take turns: nibble k moves channel k modulo their number and no other, and
      its new last sample is the output. */
  lemma {:induction false} DecodedAt(v: Voices, qs: seq<quotient>, k: nat)
    requires Mixed(v, 0) && k < |qs|
    ensures MsStream.After(v, 0, []) == v
    ensures var c, a, a' := k % |v.vs|, MsStream.After(v, 0, qs[..k]), MsStream.After(v, 0, qs[..k + 1]);
            && a' == a.(vs := a.vs[c := MsAdpcm.Decode(a.cis[c], a.vs[c], qs[k])])
            && MsStream.Decoded(v, 0, qs)[k] == a'.vs[c].samp1
  {
    hide *;
    MixedIs(v, 0);
    TurnsRound(|v.vs|, k);
    var was := MsStream.After(v, 0, qs[..k]);
    assert qs[..k + 1] == qs[..k] + [qs[k]];
    MsStream.AfterSnoc(v, 0, qs[..k], qs[k]);
    UpdateIs(was, k % |v.vs|, qs[k]);
    DecodedPrefix(v, 0, qs, k + 1);
    AfterNothing(v);
  }

  lemma {:induction false} MixedIs(v: Voices, ch: nat)
    ensures Mixed(v, ch) <==> |v.cis| == |v.vs| && ch < |v.vs|
  {
  }

  lemma {:induction false} AfterNothing(v: Voices)
    requires Mixed(v, 0)
    ensures MsStream.After(v, 0, []) == v
  {
  }

  lemma {:induction false} UpdateIs(v: Voices, c: nat, q: quotient)
    requires |v.cis| == |v.vs| && c < |v.vs|
    ensures Mixed(v, c) && Update(v, c, q) == v.(vs := v.vs[c := MsAdpcm.Decode(v.cis[c], v.vs[c], q)])
  {
    hide MsAdpcm.Decode;
  }

  lemma {:induction false} DecodedPrefix(v: Voices, ch: nat, qs: seq<quotient>, n: nat)
    requires Mixed(v, ch) && n <= |qs|
    ensures MsStream.Decoded(v, ch, qs)[..n] == MsStream.Decoded(v, ch, qs[..n])
    decreases qs
  {
    hide *;
    DecodedIs(v, ch, qs);
    DecodedIs(v, ch, qs[..n]);
    if n > 0 {
      DecodedPrefix(Update(v, ch, qs[0]), Turn(ch, |v.vs|), qs[1..], n - 1);
      assert qs[..n][1..] == qs[1..][..n - 1];
    }
  }

  lemma {:induction false} DecodedIs(v: Voices, ch: nat, qs: seq<quotient>)
    requires Mixed(v, ch)
    ensures qs == [] ==> MsStream.Decoded(v, ch, qs) == []
    ensures ch < |v.vs|
    ensures qs != [] ==>
              var v' := Update(v, ch, qs[0]);
              && Mixed(v', ch) && |v'.vs| == |v.vs| && Mixed(v', Turn(ch, |v.vs|))
              && MsStream.Decoded(v, ch, qs) == [v'.vs[ch].samp1] + MsStream.Decoded(v', Turn(ch, |v.vs|), qs[1..])
  {
    hide MsAdpcm.Decode;
  }

  /** Sample k is encoded for its channel where the nibbles before it leave the decoder. */
  lemma {:induction false} EncodedAt(v: Voices, ss: seq<sample>, k: nat)
    requires Mixed(v, 0) && k < |ss|
    ensures var c, qs := k % |v.vs|, Quotients(v, 0, ss);
            var a := MsStream.After(v, 0, qs[..k]);
            qs[k] == MsAdpcm.Encode(a.cis[c], a.vs[c], ss[k])
  {
    hide *;
    MixedIs(v, 0);
    TurnsRound(|v.vs|, k);
    assert ss[..k + 1] == ss[..k] + [ss[k]];
    QuotientsSnoc(v, 0, ss[..k], ss[k]);
    QuotientsPrefix(v, 0, ss, k);
    QuotientsPrefix(v, 0, ss, k + 1);
    assert Quotients(v, 0, ss)[k] == Quotients(v, 0, ss)[..k + 1][k];
  }

  lemma {:induction false} QuotientsPrefix(v: Voices, ch: nat, ss: seq<sample>, n: nat)
    requires Mixed(v, ch) && n <= |ss|
    ensures Quotients(v, ch, ss)[..n] == Quotients(v, ch, ss[..n])
    decreases ss
  {
    hide *;
    QuotientsAre(v, ch, ss);
    QuotientsAre(v, ch, ss[..n]);
    if n > 0 {
      var q := MsAdpcm.Encode(v.cis[ch], v.vs[ch], ss[0]);
      QuotientsPrefix(Update(v, ch, q), Turn(ch, |v.vs|), ss[1..], n - 1);
      assert ss[..n][1..] == ss[1..][..n - 1];
    }
  }

  lemma {:induction false} QuotientsAre(v: Voices, ch: nat, ss: seq<sample>)
    requires Mixed(v, ch)
    ensures ss == [] ==> Quotients(v, ch, ss) == []
    ensures ch < |v.vs| == |v.cis|
    ensures ss != [] ==>
              var q := MsAdpcm.Encode(v.cis[ch], v.vs[ch], ss[0]);
              var v' := Update(v, ch, q);
              && |v'.vs| == |v.vs| && Mixed(v', Turn(ch, |v.vs|))
              && Quotients(v, ch, ss) == [q] + Quotients(v', Turn(ch, |v.vs|), ss[1..])
  {
    hide MsAdpcm.Decode, MsAdpcm.Encode;
  }

  // ---------- bytes ----------

  /** The byte holds the k-th pair, each as four bits of two's complement: the first of it
      is the high half, an odd one out has nothing below it. */
  ghost predicate Holds(b: byte, qs: seq<quotient>, k: nat) {
    && 2 * k < |qs|
    && b as int == 16 * (qs[2 * k] as int % 16) + (if 2 * k + 1 < |qs| then qs[2 * k + 1] as int % 16 else 0)
  }

  lemma {:induction false} PackAt(qs: seq<quotient>, k: nat)
    requires k < (|qs| + 1) / 2
    ensures Holds(PackHigh(qs)[k], qs, k)
    decreases qs
  {
    hide *;
    PackIs(qs);
    HoldsIs(PackHigh(qs)[k], qs, k);
    if k > 0 {
      PackAt(qs[2..], k - 1);
      HoldsIs(PackHigh(qs)[k], qs[2..], k - 1);
    }
  }

  lemma {:induction false} HoldsIs(b: byte, qs: seq<quotient>, k: nat)
    ensures Holds(b, qs, k) <==>
              2 * k < |qs| && b as int == 16 * (qs[2 * k] as int % 16) + (if 2 * k + 1 < |qs| then qs[2 * k + 1] as int % 16 else 0)
  {
  }

  lemma {:induction false} PackIs(qs: seq<quotient>)
    ensures |qs| == 1 ==> PackHigh(qs) == [(16 * (qs[0] as int % 16)) as byte]
    ensures |qs| >= 2 ==> PackHigh(qs) == [(16 * (qs[0] as int % 16) + qs[1] as int % 16) as byte] + PackHigh(qs[2..])
  {
    if |qs| >= 1 { FourBits(qs[0]); }
    if |qs| >= 2 { FourBits(qs[1]); }
    hide Unsigned;
  }

  lemma {:induction false} FourBits(q: quotient)
    ensures Unsigned(q) == q as int % 16
  {
  }

  lemma {:induction false} WordsBytes(ws: seq<sample>, k: nat)
    requires k < |ws|
    ensures WordIs(Words(ws), 2 * k, (ws[k] as int) % 0x1_0000)
    decreases ws
  {
    hide *;
    WordsAre(ws);
    if k > 0 {
      WordsBytes(ws[1..], k - 1);
      WordBehind(Words(ws)[..2], Words(ws[1..]), [], 2 * (k - 1), (ws[k] as int) % 0x1_0000);
      assert Words(ws) == Words(ws)[..2] + Words(ws[1..]) + [];
    }
  }

  lemma {:induction false} WordsAre(ws: seq<sample>)
    requires ws != []
    ensures WordIs(Words(ws), 0, (ws[0] as int) % 0x1_0000) && Words(ws)[2..] == Words(ws[1..])
  {
    assert Word(ws[0]) == (ws[0] as int) % 0x1_0000;
    hide Word, Words;
    WordsUnfold(ws);
  }

  lemma {:induction false} WordsUnfold(ws: seq<sample>)
    requires ws != []
    ensures Words(ws) == PutLe16(Word(ws[0])) + Words(ws[1..])
  {
  }

  lemma {:induction false} WordBehind(a: seq<byte>, b: seq<byte>, c: seq<byte>, i: nat, v: nat)
    requires i + 1 < |b| && WordIs(b, i, v)
    ensures |a| + i + 1 < |a + b + c| && WordIs(a + b + c, |a| + i, v)
  {
  }

  /** One pair index per channel, then one 16-bit word per channel for the steps, for the
      second samples and for the first. */
  ghost predicate Headed(h: seq<byte>, v: Voices, ch: nat) {
    var n := |v.vs|;
    && |v.cis| == n && ch < n && 7 * n <= |h|
    && h[ch] == v.cis[ch]
    && WordIs(h, n + 2 * ch, v.vs[ch].delta % 0x1_0000)
    && WordIs(h, 3 * n + 2 * ch, v.vs[ch].samp1 % 0x1_0000)
    && WordIs(h, 5 * n + 2 * ch, v.vs[ch].samp2 % 0x1_0000)
  }

  lemma {:induction false} HeaderBytes(v: Voices, rest: seq<byte>, ch: nat)
    requires Writable(v) && ch < |v.vs|
    ensures Headed(Header(v) + rest, v, ch)
  {
    hide *;
    HeaderParts(v, ch);
    var a, b, c, d := Pairs(v.cis), Words(Deltas(v)), Words(Samp1s(v)), Words(Samp2s(v));
    WordsBytes(Deltas(v), ch);
    WordsBytes(Samp1s(v), ch);
    WordsBytes(Samp2s(v), ch);
    WordBehind(a, b, c + d + rest, 2 * ch, v.vs[ch].delta % 0x1_0000);
    WordBehind(a + b, c, d + rest, 2 * ch, v.vs[ch].samp1 % 0x1_0000);
    WordBehind(a + b + c, d, rest, 2 * ch, v.vs[ch].samp2 % 0x1_0000);
    var h := Header(v) + rest;
    assert h == a + b + (c + d + rest) && h == a + b + c + (d + rest) && h == a + b + c + d + rest;
    HeadedBy(h, v, ch);
  }

  lemma {:induction false} HeaderParts(v: Voices, ch: nat)
    requires Writable(v) && ch < |v.vs|
    ensures |v.cis| == |v.vs| && 16 <= v.vs[ch].delta <= 16383
    ensures forall i :: 0 <= i < |v.vs| ==> -32768 <= v.vs[i].delta <= 32767
    ensures Header(v) == Pairs(v.cis) + Words(Deltas(v)) + Words(Samp1s(v)) + Words(Samp2s(v))
    ensures Pairs(v.cis)[ch] == v.cis[ch] && Deltas(v)[ch] == v.vs[ch].delta
    ensures Samp1s(v)[ch] == v.vs[ch].samp1 && Samp2s(v)[ch] == v.vs[ch].samp2
  {
    hide Words;
  }

  lemma {:induction false} HeadedBy(h: seq<byte>, v: Voices, ch: nat)
    requires |v.cis| == |v.vs| && ch < |v.vs| && 7 * |v.vs| <= |h| && h[ch] == v.cis[ch]
    requires WordIs(h, |v.vs| + 2 * ch, v.vs[ch].delta % 0x1_0000)
    requires WordIs(h, 3 * |v.vs| + 2 * ch, v.vs[ch].samp1 % 0x1_0000)
    requires WordIs(h, 5 * |v.vs| + 2 * ch, v.vs[ch].samp2 % 0x1_0000)
    ensures Headed(h, v, ch)
  {
  }

  // ---------- the encoder's blocks ----------

  /** The header's voices: the chosen pair and step, and of the first two samples the second
      as the last one; a single sample counts twice. */
  ghost predicate Opens(v: Voices, samples: seq<sample>, channels: nat, ch: nat) {
    && channels > 0 && |v.vs| == |v.cis| == channels && ch < channels
    && v.cis[ch] == Choice(samples, channels, ch) && v.vs[ch].delta == InitialDelta(samples, channels, ch)
    && v.vs[ch].samp2 == (if |samples| >= channels then samples[ch] else 0)
    && v.vs[ch].samp1 == (if |samples| >= 2 * channels then samples[channels + ch] else if |samples| >= channels then samples[ch] else 0)
  }

  lemma {:induction false} OpeningOpens(samples: seq<sample>, channels: channelCount, ch: nat)
    requires ch < channels
    ensures Opens(Opening(samples, channels), samples, channels, ch)
  {
    hide Choice, InitialDelta, SampleAt;
    SampleIs(samples, channels, ch, 0);
    SampleIs(samples, channels, ch, 1);
    assert |samples| / channels > 1 <==> |samples| >= 2 * channels by { assert channels == 1 || channels == 2; }
  }

  lemma {:induction false} SampleIs(samples: seq<sample>, channels: channelCount, ch: nat, i: nat)
    requires ch < channels
    ensures if |samples| >= (i + 1) * channels then SampleAt(samples, channels, ch, i) == samples[i * channels + ch]
            else SampleAt(samples, channels, ch, i) == 0
  {
    assert channels == 1 || channels == 2;
  }

  /** The samples after the header's two per channel, as they come; past the last whole
      frame, silence. */
  ghost predicate Follows(samples: seq<sample>, channels: channelCount, ss: seq<sample>) {
    forall k :: 0 <= k < |ss| ==>
      ss[k] == if 2 * channels + k < |samples| / channels * channels then samples[2 * channels + k] else 0
  }

  lemma {:induction false} TailFollows(samples: seq<sample>, channels: channelCount, ss: seq<sample>)
    requires Follows(samples, channels, ss)
    ensures ss == Tail(samples, channels, |ss|)
  {
    forall k | 0 <= k < |ss| ensures ss[k] == Tail(samples, channels, |ss|)[k] {
      TailAtIs(samples, channels, k);
    }
  }

  lemma {:induction false} TailAtIs(samples: seq<sample>, channels: channelCount, k: nat)
    ensures TailAt(samples, channels, k) == if 2 * channels + k < |samples| / channels * channels then samples[2 * channels + k] else 0
  {
    if channels == 1 {
    } else {
      assert channels == 2;
      HalfOf(|samples|, k);
    }
  }

  lemma {:induction false} HalfOf(n: nat, k: nat)
    ensures 2 + k / 2 < n / 2 <==> 4 + k < n / 2 * 2
    ensures (2 + k / 2) * 2 + k % 2 == 4 + k
  {
  }

  /** A whole block: the header, two nibbles to a byte as many as are asked for and fit, and
      zeros to its end. */
  lemma {:induction false} BlockBytes(samples: seq<sample>, channels: channelCount, spb: nat, blockAlign: nat, ss: seq<sample>, v: Voices, ch: nat, k: nat)
    requires blockAlign >= 7 * channels && ch < channels && Mixed(v, 0)
    requires Follows(samples, channels, ss) && forall c :: 0 <= c < channels ==> Opens(v, samples, channels, c)
    requires var wanted := if spb < 2 then 0 else channels * (spb - 2);
             |ss| == if wanted < 2 * (blockAlign - 7 * channels) then wanted else 2 * (blockAlign - 7 * channels)
    ensures var block, qs := MsBlock(samples, channels, spb, blockAlign), Quotients(v, 0, ss);
            && |block| == blockAlign && Headed(block, v, ch)
            && (7 * channels + k < blockAlign ==>
                  if 2 * k < |qs| then Holds(block[7 * channels + k], qs, k) else block[7 * channels + k] == 0)
  {
    hide *;
    WantedIs(channels, spb);
    OpensOnce(v, samples, channels);
    TailFollows(samples, channels, ss);
    var qs := Quotients(v, 0, ss);
    BlockIs(samples, channels, spb, blockAlign);
    var z := Zeroes(blockAlign - 7 * channels - (|qs| + 1) / 2);
    HeaderBytes(v, PackHigh(qs) + z, ch);
    assert Header(v) + PackHigh(qs) + z == Header(v) + (PackHigh(qs) + z);
    if 7 * channels + k < blockAlign {
      if 2 * k < |qs| {
        PackAt(qs, k);
      } else {
        ZeroAt(|z|, k - (|qs| + 1) / 2);
      }
    }
  }

  lemma {:induction false} ZeroAt(n: nat, i: nat)
    requires i < n
    ensures Zeroes(n)[i] == 0
  {
  }

  lemma {:induction false} WantedIs(channels: channelCount, spb: nat)
    ensures Wanted(channels, spb) == if spb < 2 then 0 else channels * (spb - 2)
  {
    assert channels == 1 || channels == 2;
  }

  lemma {:induction false} BlockIs(samples: seq<sample>, channels: channelCount, spb: nat, blockAlign: nat)
    requires blockAlign >= 7 * channels
    ensures var v, limit, wanted := Opening(samples, channels), 2 * (blockAlign - 7 * channels), Wanted(channels, spb);
            var n := if wanted < limit then wanted else limit;
            && (n + 1) / 2 <= blockAlign - 7 * channels
            && Writable(v) && |v.vs| == channels && Mixed(v, 0) && |Header(v)| == 7 * channels
            && MsBlock(samples, channels, spb, blockAlign) ==
                 Header(v) + PackHigh(Quotients(v, 0, Tail(samples, channels, n))) + Zeroes(blockAlign - 7 * channels - (n + 1) / 2)
  {
    hide Opening, Header, PackHigh, Quotients, Tail, Zeroes, Wanted;
  }

  lemma {:induction false} OpensOnce(v: Voices, samples: seq<sample>, channels: channelCount)
    requires forall c :: 0 <= c < channels ==> Opens(v, samples, channels, c)
    ensures v == Opening(samples, channels)
  {
    var w := Opening(samples, channels);
    assert |w.vs| == channels && |w.cis| == channels by { hide Choice, OpeningVoice; }
    hide Opening;
    assert Opens(v, samples, channels, 0);
    forall c | 0 <= c < channels ensures v.vs[c] == w.vs[c] && v.cis[c] == w.cis[c] {
      OpeningOpens(samples, channels, c);
      SameOpening(v, w, samples, channels, c);
    }
    assert v.vs == w.vs && v.cis == w.cis;
  }

  lemma {:induction false} SameOpening(v: Voices, w: Voices, samples: seq<sample>, channels: channelCount, c: nat)
    requires Opens(v, samples, channels, c) && Opens(w, samples, channels, c)
    ensures v.vs[c] == w.vs[c] && v.cis[c] == w.cis[c]
  {
    hide Choice, InitialDelta;
  }

  // ---------- the decoder on any block ----------

  /** What a block says of channel ch; a pair index above six is taken as pair 0. */
  ghost predicate Says(blk: seq<byte>, channels: nat, v: Voices, ch: nat) {
    && |v.vs| == |v.cis| == channels && ch < channels && 7 * channels <= |blk|
    && v.cis[ch] == (if blk[ch] <= 6 then blk[ch] else 0)
    && -32768 <= v.vs[ch].delta <= 32767
    && WordIs(blk, channels + 2 * ch, v.vs[ch].delta % 0x1_0000)
    && WordIs(blk, 3 * channels + 2 * ch, v.vs[ch].samp1 % 0x1_0000)
    && WordIs(blk, 5 * channels + 2 * ch, v.vs[ch].samp2 % 0x1_0000)
  }

  lemma {:induction false} SignedWord(blk: seq<byte>, i: nat, n: int16)
    requires i + 1 < |blk| && WordIs(blk, i, n % 0x1_0000)
    ensures Int16(GetLe16(blk[i..])) == n
  {
  }

  lemma {:induction false} VoiceSaid(blk: seq<byte>, channels: nat, v: Voices, ch: nat)
    requires Says(blk, channels, v, ch)
    ensures ReadVoice(blk, channels, ch) == v.vs[ch] && ReadPair(blk[ch]) == v.cis[ch]
  {
    hide Int16, GetLe16, WordIs;
    SignedWord(blk, channels + 2 * ch, v.vs[ch].delta);
    SignedWord(blk, 3 * channels + 2 * ch, v.vs[ch].samp1);
    SignedWord(blk, 5 * channels + 2 * ch, v.vs[ch].samp2);
  }

  lemma {:induction false} HeaderSaid(blk: seq<byte>, channels: nat, v: Voices)
    requires channels > 0 && |v.vs| == |v.cis| == channels && 7 * channels <= |blk|
    requires forall ch :: 0 <= ch < channels ==> Says(blk, channels, v, ch)
    ensures ReadHeader(blk, channels) == v
  {
    hide Says, ReadVoice, ReadPair;
    forall ch | 0 <= ch < channels ensures ReadVoice(blk, channels, ch) == v.vs[ch] && ReadPair(blk[ch]) == v.cis[ch] {
      VoiceSaid(blk, channels, v, ch);
    }
    var w := ReadHeader(blk, channels);
    assert w.vs == v.vs && w.cis == v.cis;
  }

  /** The signed nibbles of some bytes, high half first, at most so many. */
  ghost predicate FirstNibbles(bytes: seq<byte>, limit: nat, qs: seq<quotient>) {
    && |qs| == (if 2 * |bytes| < limit then 2 * |bytes| else limit)
    && forall k :: 0 <= k < |qs| ==> qs[k] as int % 16 == (if k % 2 == 0 then bytes[k / 2] / 16 else bytes[k / 2] % 16) as int
  }

  lemma {:induction false} SignOf(q: quotient, n: nibble)
    requires q as int % 16 == n
    ensures FromUnsigned(n) == q
  {
  }

  lemma {:induction false} FirstUnpacked(bytes: seq<byte>, limit: nat, qs: seq<quotient>)
    requires FirstNibbles(bytes, limit, qs)
    ensures |qs| <= 2 * |bytes| && |qs| == (if 2 * |bytes| < limit then 2 * |bytes| else limit) && UnpackHigh(bytes)[..|qs|] == qs
  {
    hide UnpackHigh, FromUnsigned;
    forall k | 0 <= k < |qs| ensures qs[k] == UnpackHigh(bytes)[k] {
      UnpackHighAt(bytes, k / 2);
      assert k == 2 * (k / 2) || k == 2 * (k / 2) + 1;
      SignOf(qs[k], if k % 2 == 0 then bytes[k / 2] / 16 else bytes[k / 2] % 16);
    }
  }

  /** Any block: every channel's first sample, every channel's second, and then what the
      nibbles stand for, as many as are asked for and there; a block without a header gives
      nothing, nor does one of fewer than two samples. */
  lemma {:induction false} BlockDecodes(blk: seq<byte>, channels: channelCount, spb: nat, v: Voices, qs: seq<quotient>)
    ensures |blk| < 7 * channels || spb < 2 ==> MsDecoded(blk, channels, spb) == []
    ensures |blk| >= 7 * channels && spb >= 2 && Mixed(v, 0) && |v.vs| == channels
            && (forall ch :: 0 <= ch < channels ==> Says(blk, channels, v, ch))
            && FirstNibbles(blk[7 * channels..], channels * (spb - 2), qs) ==>
              MsDecoded(blk, channels, spb) ==
                (if channels == 1 then [v.vs[0].samp2, v.vs[0].samp1] else [v.vs[0].samp2, v.vs[1].samp2, v.vs[0].samp1, v.vs[1].samp1])
                + MsStream.Decoded(v, 0, qs)
  {
    hide *;
    DecodedBlock(blk, channels, spb);
    WantedIs(channels, spb);
    if |blk| >= 7 * channels && spb >= 2 && Mixed(v, 0) && |v.vs| == channels
       && (forall ch :: 0 <= ch < channels ==> Says(blk, channels, v, ch))
       && FirstNibbles(blk[7 * channels..], channels * (spb - 2), qs) {
      MixedIs(v, 0);
      HeaderSaid(blk, channels, v);
      FirstUnpacked(blk[7 * channels..], channels * (spb - 2), qs);
      FirstTwo(v, channels);
    }
  }

  lemma {:induction false} FirstTwo(v: Voices, channels: channelCount)
    requires |v.vs| == channels
    ensures Samp2s(v) + Samp1s(v) == if channels == 1 then [v.vs[0].samp2, v.vs[0].samp1] else [v.vs[0].samp2, v.vs[1].samp2, v.vs[0].samp1, v.vs[1].samp1]
  {
    if channels == 1 {
    } else {
      assert channels == 2;
    }
  }

  lemma {:induction false} DecodedBlock(blk: seq<byte>, channels: channelCount, spb: nat)
    ensures |blk| < 7 * channels || spb < 2 ==> MsDecoded(blk, channels, spb) == []
    ensures |blk| >= 7 * channels && spb >= 2 ==>
              var v, bytes, wanted := ReadHeader(blk, channels), blk[7 * channels..], Wanted(channels, spb);
              MsDecoded(blk, channels, spb) == Samp2s(v) + Samp1s(v)
                + MsStream.Decoded(v, 0, UnpackHigh(bytes)[..if 2 * |bytes| < wanted then 2 * |bytes| else wanted])
  {
    hide ReadHeader, UnpackHigh, MsStream.Decoded, Wanted, Samp1s, Samp2s;
  }
}
