/** MS-ADPCM blocks: what the audio-input encoder writes, the audio-output decoder reads
    back. */
module MsBlocks {
  import opened Bits
  import opened Wire
  import opened Pcm
  import opened MsChoice
  import opened MsStream
  import MsAdpcm

  // ---------- nibbles in bytes, high nibble first ----------

  function Unsigned(q: quotient): nibble { if q < 0 then q + 16 else q }

  function FromUnsigned(n: nibble): quotient { if n >= 8 then n as int - 16 else n as int }

  function PackHigh(qs: seq<quotient>): (bytes: seq<byte>)
    ensures |bytes| == (|qs| + 1) / 2
  {
    if qs == [] then [] else if |qs| == 1 then [Byte(0, Unsigned(qs[0]))]
    else [Byte(Unsigned(qs[1]), Unsigned(qs[0]))] + PackHigh(qs[2..])
  }

  function UnpackHigh(bytes: seq<byte>): (qs: seq<quotient>)
    ensures |qs| == 2 * |bytes|
  {
    if bytes == [] then [] else [FromUnsigned(bytes[0] / 16), FromUnsigned(bytes[0] % 16)] + UnpackHigh(bytes[1..])
  }

  lemma {:induction false} SignedNibble(q: quotient, lo: nibble)
    ensures FromUnsigned(Unsigned(q)) == q && Byte(lo, Unsigned(q)) / 16 == Unsigned(q)
  {
  }

  lemma {:induction false} LowNibble(lo: nibble, hi: nibble)
    ensures Byte(lo, hi) % 16 == lo && Byte(lo, hi) / 16 == hi
  {
  }

  lemma {:induction false} UnpackPackHigh(qs: seq<quotient>)
    ensures UnpackHigh(PackHigh(qs)) == if |qs| % 2 == 0 then qs else qs + [0]
  {
    if |qs| >= 1 {
      SignedNibble(qs[0], 0);
    }
    if |qs| >= 2 {
      UnpackPackHigh(qs[2..]);
      SignedNibble(qs[0], Unsigned(qs[1]));
      SignedNibble(qs[1], 0);
      hide Unsigned, FromUnsigned, Byte;
      LowNibble(Unsigned(qs[1]), Unsigned(qs[0]));
      assert PackHigh(qs)[1..] == PackHigh(qs[2..]);
      assert qs == [qs[0], qs[1]] + qs[2..];
    }
  }

  lemma {:induction false} UnpackHighConcat(a: seq<byte>, b: seq<byte>)
    ensures UnpackHigh(a + b) == UnpackHigh(a) + UnpackHigh(b)
  {
    if a == [] {
      assert a + b == b;
    } else {
      assert (a + b)[1..] == a[1..] + b;
      UnpackHighConcat(a[1..], b);
    }
  }

  lemma {:induction false} UnpackHighAt(bytes: seq<byte>, k: nat)
    requires k < |bytes|
    ensures UnpackHigh(bytes)[2 * k] == FromUnsigned(bytes[k] / 16) && UnpackHigh(bytes)[2 * k + 1] == FromUnsigned(bytes[k] % 16)
    decreases bytes
  {
    if k > 0 {
      UnpackHighAt(bytes[1..], k - 1);
    }
  }

  /** An even nibble opens a byte, an odd one completes it. */
  lemma {:induction false} PackHighSnoc(qs: seq<quotient>, q: quotient)
    ensures |qs| % 2 == 0 ==> PackHigh(qs + [q]) == PackHigh(qs) + [Byte(0, Unsigned(q))]
    ensures |qs| % 2 == 1 ==>
              var p := PackHigh(qs);
              p[|p| - 1] % 16 == 0 && PackHigh(qs + [q]) == p[..|p| - 1] + [Byte(Unsigned(q), p[|p| - 1] / 16)]
    decreases qs
  {
    if |qs| == 1 { LowNibble(0, Unsigned(qs[0])); }
    hide Byte, Unsigned;
    if |qs| >= 2 {
      assert (qs + [q])[2..] == qs[2..] + [q];
      PackHighSnoc(qs[2..], q);
    }
  }

  // ---------- the header ----------

  function Words(ws: seq<sample>): (bytes: seq<byte>)
    ensures |bytes| == 2 * |ws|
  {
    if ws == [] then [] else PutLe16(Word(ws[0])) + Words(ws[1..])
  }

  lemma {:induction false} WordsSnoc(ws: seq<sample>, w: sample)
    ensures Words(ws + [w]) == Words(ws) + PutLe16(Word(w))
  {
    if ws == [] {
      assert [] + [w] == [w] && [w][1..] == [];
    } else {
      assert (ws + [w])[1..] == ws[1..] + [w];
      WordsSnoc(ws[1..], w);
    }
  }

  lemma {:induction false} WordsAt(ws: seq<sample>, k: nat)
    requires k < |ws|
    ensures Int16(GetLe16(Words(ws)[2 * k..])) == ws[k]
  {
    if k == 0 {
      assert Words(ws)[0..] == PutLe16(Word(ws[0])) + Words(ws[1..]);
      assert GetLe16(Words(ws)[0..]) == GetLe16(PutLe16(Word(ws[0])));
    } else {
      WordsAt(ws[1..], k - 1);
      assert Words(ws)[2 * k..] == Words(ws[1..])[2 * (k - 1)..];
    }
  }

  function Deltas(v: Voices): (ds: seq<sample>)
    requires forall i :: 0 <= i < |v.vs| ==> v.vs[i].delta <= 32767 && v.vs[i].delta >= -32768
    ensures |ds| == |v.vs|
  {
    seq(|v.vs|, i requires 0 <= i < |v.vs| => v.vs[i].delta)
  }

  function Samp1s(v: Voices): (ss: seq<sample>)
    ensures |ss| == |v.vs|
  {
    seq(|v.vs|, i requires 0 <= i < |v.vs| => v.vs[i].samp1)
  }

  function Samp2s(v: Voices): (ss: seq<sample>)
    ensures |ss| == |v.vs|
  {
    seq(|v.vs|, i requires 0 <= i < |v.vs| => v.vs[i].samp2)
  }

  /** One pair index and one 16-bit step per channel. */
  ghost predicate Writable(v: Voices) {
    |v.cis| == |v.vs| && forall i :: 0 <= i < |v.vs| ==> 16 <= v.vs[i].delta <= 16383
  }

  function Pairs(cis: seq<pair>): (bytes: seq<byte>)
    ensures |bytes| == |cis|
  {
    cis
  }

  function Header(v: Voices): (h: seq<byte>)
    requires Writable(v)
    ensures |h| == 7 * |v.vs|
  {
    Pairs(v.cis) + Words(Deltas(v)) + Words(Samp1s(v)) + Words(Samp2s(v))
  }

  function ReadVoice(blk: seq<byte>, channels: nat, ch: nat): MsAdpcm.Voice
    requires ch < channels && |blk| >= 7 * channels
  {
    MsAdpcm.Voice(Int16(GetLe16(blk[channels + 2 * ch..])), Int16(GetLe16(blk[3 * channels + 2 * ch..])),
                  Int16(GetLe16(blk[5 * channels + 2 * ch..])))
  }

  function ReadPair(b: byte): pair { if b > 6 then 0 else b }

  function ReadHeader(blk: seq<byte>, channels: nat): (v: Voices)
    requires channels > 0 && |blk| >= 7 * channels
    ensures |v.cis| == |v.vs| == channels
  {
    Voices(seq(channels, ch requires 0 <= ch < channels => ReadPair(blk[ch])),
           seq(channels, ch requires 0 <= ch < channels => ReadVoice(blk, channels, ch)))
  }

  lemma {:induction false} HeaderRoundTrip(v: Voices, rest: seq<byte>)
    requires Writable(v) && |v.vs| > 0
    ensures ReadHeader(Header(v) + rest, |v.vs|) == v
  {
    var n, blk := |v.vs|, Header(v) + rest;
    var a, b, c, d := Pairs(v.cis), Words(Deltas(v)), Words(Samp1s(v)), Words(Samp2s(v));
    hide Header, Words, Int16, GetLe16;
    forall ch | 0 <= ch < n ensures ReadVoice(blk, n, ch) == v.vs[ch] && ReadPair(blk[ch]) == v.cis[ch] {
      VoiceRoundTrip(v, rest, ch);
    }
    var v' := ReadHeader(blk, n);
    assert v'.vs == v.vs && v'.cis == v.cis;
  }

  lemma {:induction false} VoiceRoundTrip(v: Voices, rest: seq<byte>, ch: nat)
    requires Writable(v) && ch < |v.vs|
    ensures var blk := Header(v) + rest;
            ReadVoice(blk, |v.vs|, ch) == v.vs[ch] && ReadPair(blk[ch]) == v.cis[ch]
  {
    var a, b, c, d := Pairs(v.cis), Words(Deltas(v)), Words(Samp1s(v)), Words(Samp2s(v));
    hide Words;
    FieldAt(a, Deltas(v), c + d + rest, ch);
    FieldAt(a + b, Samp1s(v), d + rest, ch);
    FieldAt(a + b + c, Samp2s(v), rest, ch);
    Regroup(a, b, c, d, rest);
  }

  lemma {:induction false} Regroup(a: seq<byte>, b: seq<byte>, c: seq<byte>, d: seq<byte>, e: seq<byte>)
    ensures a + b + c + d + e == a + b + (c + d + e) == a + b + c + (d + e)
  {
  }

  lemma {:induction false} FieldAt(before: seq<byte>, ws: seq<sample>, after: seq<byte>, k: nat)
    requires k < |ws|
    ensures Int16(GetLe16((before + Words(ws) + after)[|before| + 2 * k..])) == ws[k]
  {
    hide Words;
    WordsAt(ws, k);
    var s := before + Words(ws) + after;
    assert s[|before| + 2 * k..] == Words(ws)[2 * k..] + after;
  }
}
