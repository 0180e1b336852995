/** MS-ADPCM nibbles of one or two interleaved channels: the encoder and the decoder move
    through the same states. */
module MsStream {
  import opened Pcm
  import opened MsChoice
  import MsAdpcm

  /** A block's channels: their coefficient pairs and states. */
  datatype Voices = Voices(cis: seq<pair>, vs: seq<MsAdpcm.Voice>)

  ghost predicate Mixed(v: Voices, ch: nat) { |v.cis| == |v.vs| && ch < |v.vs| }

  function Turn(ch: nat, channels: nat): (next: nat)
    requires ch < channels
    ensures next < channels
  {
    if ch + 1 == channels then 0 else ch + 1
  }

  function Update(v: Voices, ch: nat, q: quotient): (v': Voices)
    requires Mixed(v, ch)
    ensures Mixed(v', ch) && |v'.vs| == |v.vs|
  {
    v.(vs := v.vs[ch := MsAdpcm.Decode(v.cis[ch], v.vs[ch], q)])
  }

  /** The nibbles of interleaved samples, from channel ch on. */
  function Quotients(v: Voices, ch: nat, ss: seq<sample>): (qs: seq<quotient>)
    requires Mixed(v, ch)
    ensures |qs| == |ss|
    decreases ss
  {
    if ss == [] then []
    else
      var q := MsAdpcm.Encode(v.cis[ch], v.vs[ch], ss[0]);
      [q] + Quotients(Update(v, ch, q), Turn(ch, |v.vs|), ss[1..])
  }

  function After(v: Voices, ch: nat, qs: seq<quotient>): (v': Voices)
    requires Mixed(v, ch)
    ensures |v'.cis| == |v'.vs| == |v.vs|
    decreases qs
  {
    if qs == [] then v else After(Update(v, ch, qs[0]), Turn(ch, |v.vs|), qs[1..])
  }

  /** The decoder's output. */
  function Decoded(v: Voices, ch: nat, qs: seq<quotient>): (out: seq<sample>)
    requires Mixed(v, ch)
    ensures |out| == |qs|
    decreases qs
  {
    if qs == [] then []
    else
      var v' := Update(v, ch, qs[0]);
      [v'.vs[ch].samp1] + Decoded(v', Turn(ch, |v.vs|), qs[1..])
  }

  /** The channel whose turn it is after n nibbles. */
  function ChannelAt(ch: nat, channels: nat, n: nat): (c: nat)
    requires ch < channels
    ensures c < channels
  {
    if n == 0 then ch else Turn(ChannelAt(ch, channels, n - 1), channels)
  }

  lemma {:induction false} ChannelShift(ch: nat, channels: nat, n: nat)
    requires ch < channels
    ensures ChannelAt(Turn(ch, channels), channels, n) == ChannelAt(ch, channels, n + 1)
  {
    if n > 0 {
      ChannelShift(ch, channels, n - 1);
    }
  }

  lemma {:induction false} AfterSnoc(v: Voices, ch: nat, qs: seq<quotient>, q: quotient)
    requires Mixed(v, ch)
    ensures var c := ChannelAt(ch, |v.vs|, |qs|);
            && After(v, ch, qs + [q]) == Update(After(v, ch, qs), c, q)
            && Decoded(v, ch, qs + [q]) == Decoded(v, ch, qs) + [After(v, ch, qs + [q]).vs[c].samp1]
    decreases qs
  {
    hide MsAdpcm.Decode;
    if qs == [] {
      assert qs + [q] == [q];
    } else {
      assert (qs + [q])[1..] == qs[1..] + [q];
      AfterSnoc(Update(v, ch, qs[0]), Turn(ch, |v.vs|), qs[1..], q);
      ChannelShift(ch, |v.vs|, |qs| - 1);
    }
  }

  lemma {:induction false} QuotientsSnoc(v: Voices, ch: nat, ss: seq<sample>, s: sample)
    requires Mixed(v, ch)
    ensures var qs, c := Quotients(v, ch, ss), ChannelAt(ch, |v.vs|, |ss|);
            var at := After(v, ch, qs);
            Quotients(v, ch, ss + [s]) == qs + [MsAdpcm.Encode(at.cis[c], at.vs[c], s)]
    decreases ss
  {
    hide MsAdpcm.Decode, MsAdpcm.Encode;
    if ss == [] {
      assert ss + [s] == [s];
    } else {
      assert (ss + [s])[1..] == ss[1..] + [s];
      var q := MsAdpcm.Encode(v.cis[ch], v.vs[ch], ss[0]);
      QuotientsSnoc(Update(v, ch, q), Turn(ch, |v.vs|), ss[1..], s);
      ChannelShift(ch, |v.vs|, |ss| - 1);
      assert Quotients(v, ch, ss)[1..] == Quotients(Update(v, ch, q), Turn(ch, |v.vs|), ss[1..]);
    }
  }

  // ---------- steps and errors over a whole stream ----------

  ghost predicate DeltasOk(v: Voices) { forall i :: 0 <= i < |v.vs| ==> MsAdpcm.DeltaOk(v.vs[i]) }

  /** Every step of every channel stays in range, at every point of the stream. */
  lemma {:induction false} DeltasStay(v: Voices, ch: nat, ss: seq<sample>, n: nat)
    requires Mixed(v, ch) && DeltasOk(v) && n <= |ss|
    ensures DeltasOk(After(v, ch, Quotients(v, ch, ss)[..n]))
    decreases ss
  {
    hide MsAdpcm.Decode, MsAdpcm.Encode, MsAdpcm.DeltaOk;
    if n > 0 {
      var q := MsAdpcm.Encode(v.cis[ch], v.vs[ch], ss[0]);
      MsAdpcm.DeltaStays(v.cis[ch], v.vs[ch], ss[0]);
      DeltasStay(Update(v, ch, q), Turn(ch, |v.vs|), ss[1..], n - 1);
      assert Quotients(v, ch, ss)[..n][1..] == Quotients(Update(v, ch, q), Turn(ch, |v.vs|), ss[1..])[..n - 1];
    }
  }

  /** When sample i is in the decoder's range, its output is within one step of it. */
  ghost predicate Tracks(v: Voices, ch: nat, ss: seq<sample>, out: seq<sample>, i: nat)
    requires Mixed(v, ch) && |out| == |ss| && i < |ss|
  {
    var at, c := After(v, ch, Quotients(v, ch, ss)[..i]), ChannelAt(ch, |v.vs|, i);
    var voice := at.vs[c];
    var err := ss[i] - MsAdpcm.Predict(at.cis[c], voice.samp1, voice.samp2);
    -9 * voice.delta < err < 8 * voice.delta ==> Distance(ss[i], out[i]) < voice.delta
  }

  lemma {:induction false} DecoderTracks(v: Voices, ch: nat, ss: seq<sample>, i: nat)
    requires Mixed(v, ch) && DeltasOk(v) && i < |ss|
    ensures Tracks(v, ch, ss, Decoded(v, ch, Quotients(v, ch, ss)), i)
    decreases ss
  {
    hide MsAdpcm.Decode, MsAdpcm.Encode, MsAdpcm.Predict;
    var q := MsAdpcm.Encode(v.cis[ch], v.vs[ch], ss[0]);
    var v' := Update(v, ch, q);
    if i == 0 {
      var err := ss[0] - MsAdpcm.Predict(v.cis[ch], v.vs[ch].samp1, v.vs[ch].samp2);
      if -9 * v.vs[ch].delta < err < 8 * v.vs[ch].delta {
        MsAdpcm.NibbleTracks(v.cis[ch], v.vs[ch], ss[0]);
      }
    } else {
      MsAdpcm.DeltaStays(v.cis[ch], v.vs[ch], ss[0]);
      DecoderTracks(v', Turn(ch, |v.vs|), ss[1..], i - 1);
      ChannelShift(ch, |v.vs|, i - 1);
      assert Quotients(v, ch, ss)[..i][1..] == Quotients(v', Turn(ch, |v.vs|), ss[1..])[..i - 1];
    }
  }
}
