/** 16-bit samples, interleaved channels, nibbles, and output buffers. */
module Pcm {
  import opened Bits
  import opened Wire

  type nibble = n: nat | n < 16
  type sample = int16

  function Clamp16(n: int): sample { if n > 32767 then 32767 else if n < -32768 then -32768 else n }

  function Distance(a: int, b: int): nat { if a < b then b - a else a - b }

  /** The low nibble comes first. */
  function Byte(lo: nibble, hi: nibble): byte { (lo as int) + 16 * (hi as int) }

  /** Sample i of one channel of interleaved samples; past the end, silence. */
  function SampleAt(samples: seq<sample>, channels: nat, ch: nat, i: nat): sample
    requires ch < channels
  {
    if i < |samples| / channels then
      InterleavedIndex(|samples|, channels, ch, i);
      samples[i * channels + ch]
    else 0
  }

  lemma {:induction false} InterleavedIndex(n: nat, channels: nat, ch: nat, i: nat)
    requires ch < channels && i < n / channels
    ensures 0 <= i * channels + ch < n
  {
    assert n == (n / channels) * channels + n % channels;
    MulLess(i, n / channels, channels);
    MulAtLeast(n / channels - i, channels);
    assert (n / channels) * channels == i * channels + (n / channels - i) * channels;
  }

  /** Put bytes at the cursor. */
  method Put(dst: array<byte>, off: nat, bytes: seq<byte>) returns (off': nat)
    requires off + |bytes| <= dst.Length
    modifies dst
    ensures off' == off + |bytes| && dst[..off'] == old(dst[..off]) + bytes
    ensures forall k :: off' <= k < dst.Length ==> dst[k] == old(dst[k])
  {
    for k := 0 to |bytes|
      invariant dst[..off + k] == old(dst[..off]) + bytes[..k]
      invariant forall i :: off + k <= i < dst.Length ==> dst[i] == old(dst[i])
    {
      dst[off + k] := bytes[k];
      assert dst[..off + (k + 1)] == dst[..off + k] + [bytes[k]];
      assert bytes[..k + 1] == bytes[..k] + [bytes[k]];
    }
    off' := off + |bytes|;
    assert bytes[..|bytes|] == bytes;
  }

  function Upto<T>(s: seq<T>, n: nat): (t: seq<T>)
    ensures |t| == Least(|s|, n)
  {
    s[..Least(|s|, n)]
  }

  /** How many samples each channel has. */
  ghost predicate Counted(samples: seq<sample>, channels: nat, count: nat) { channels > 0 && count == |samples| / channels }

  method Strided(samples: seq<sample>, offset: nat, stride: nat, ghost count: nat, i: nat) returns (s: sample)
    requires offset < stride && Counted(samples, stride, count) && i < count
    ensures s == SampleAt(samples, stride, offset, i)
  {
    InterleavedIndex(|samples|, stride, offset, i);
    s := samples[i * stride + offset];
  }
}
