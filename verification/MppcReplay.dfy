/** Tokens executed on the history: for valid tokens the program's masked copies are the
    replay of the token list. */
module MppcReplay {
  import opened Bits
  import opened MppcCode

  // ---------- executing tokens on the 64 KB history ----------

  /** Byte-by-byte copy inside the history; the two areas may overlap. */
  function CopyBytes(hist: seq<byte>, to: nat, from: nat, n: nat): (h: seq<byte>)
    requires to + n <= |hist| && from + n <= |hist|
    ensures |h| == |hist|
    decreases n
  {
    if n == 0 then hist else CopyBytes(hist[to := hist[from]], to + 1, from + 1, n - 1)
  }

  datatype Run = Done(hist: seq<byte>, off: nat) | Failed(hist: seq<byte>) | Trapped(hist: seq<byte>)

  /** Index of the first byte a match copies: 32-bit difference, then masked. */
  function MatchIndex(big: bool, off: nat, dist: nat): (k: nat)
    ensures k <= Mask(big)
  {
    (off - dist) % (Mask(big) + 1)
  }

  /** Run one token at write position off.
      Trapped: the copy runs off the end of the history array. */
  function Exec(big: bool, hist: seq<byte>, off: nat, t: Token): (r: Run)
    requires |hist| == DICT_SIZE && off <= DICT_SIZE
    ensures |r.hist| == DICT_SIZE
    ensures r.Done? ==> r.off == off + Size(t) <= DICT_SIZE
  {
    match t
    case Literal(b) =>
      if off >= DICT_SIZE then Failed(hist) else Done(hist[off := b], off + 1)
    case Match(dist, len) =>
      if off + len >= DICT_SIZE then Failed(hist)
      else
        var k := MatchIndex(big, off, dist);
        if k + len > DICT_SIZE then Trapped(CopyBytes(hist, off, k, DICT_SIZE - k))
        else Done(CopyBytes(hist, off, k, len), off + len)
  }

  /** Run the bit string against the history from write position off. */
  function Expand(big: bool, hist: seq<byte>, off: nat, bits: seq<bool>): (r: Run)
    requires |hist| == DICT_SIZE && off <= DICT_SIZE
    ensures |r.hist| == DICT_SIZE
    ensures r.Done? ==> off <= r.off <= DICT_SIZE
    decreases |bits|
  {
    match ParseToken(big, bits)
    case End => Done(hist, off)
    case Malformed => Failed(hist)
    case Item(t, rest) =>
      var r := Exec(big, hist, off, t);
      if r.Done? then Expand(big, r.hist, r.off, rest) else r
  }

  // ---------- the replay ----------

  /** LZ77: a match repeats the last dist bytes as often as needed. */
  function Repeat(w: seq<byte>, dist: nat, len: nat): (s: seq<byte>)
    requires 1 <= dist <= |w|
    ensures |s| == len
  {
    seq(len, i requires 0 <= i < len => w[|w| - dist + i % dist])
  }

  function Replay(w: seq<byte>, ts: seq<Token>): seq<byte>
    decreases ts
  {
    if ts == [] then w
    else match ts[0]
      case Literal(b) => Replay(w + [b], ts[1..])
      case Match(dist, len) =>
        if 1 <= dist <= |w| then Replay(w + Repeat(w, dist, len), ts[1..]) else w
  }

  // ---------- running the code is the replay ----------

  lemma {:induction false} NextResidue(j: nat, d: nat)
    requires d > 0
    ensures (j + 1) % d == if j % d == d - 1 then 0 else j % d + 1
  {
    var q, r := j / d, j % d;
    assert j == q * d + r;
    if r == d - 1 {
      assert (q + 1) * d == q * d + d;
      DivisionUnique(j + 1, d, q + 1, 0);
    } else {
      DivisionUnique(j + 1, d, q, r + 1);
    }
  }

  /** An overlapping forward copy from d bytes back is periodic with period d. */
  lemma {:induction false} CopyIsPeriodic(hist: seq<byte>, to: nat, d: nat, n: nat, j: nat)
    requires to + n <= |hist| && 1 <= d <= to && j < n
    ensures CopyBytes(hist, to, to - d, n)[to + j] == hist[to - d + j % d]
    decreases n
  {
    var hist' := hist[to := hist[to - d]];
    if j == 0 {
      CopyKeepsPast(hist', to + 1, to + 1 - d, n - 1);
      assert CopyBytes(hist, to, to - d, n)[..to + 1][to] == hist'[to];
    } else {
      CopyIsPeriodic(hist', to + 1, d, n - 1, j - 1);
      NextResidue(j - 1, d);
    }
  }

  lemma {:induction false} CopyKeepsPast(hist: seq<byte>, to: nat, from: nat, n: nat)
    requires to + n <= |hist| && from + n <= |hist|
    ensures CopyBytes(hist, to, from, n)[..to] == hist[..to]
    decreases n
  {
    if n > 0 {
      var hist' := hist[to := hist[from]];
      CopyKeepsPast(hist', to + 1, from + 1, n - 1);
      PrefixOfPrefix(CopyBytes(hist, to, from, n), hist', to, to + 1);
    }
  }

  lemma {:induction false} CopyKeepsFuture(hist: seq<byte>, to: nat, from: nat, n: nat)
    requires to + n <= |hist| && from + n <= |hist|
    ensures CopyBytes(hist, to, from, n)[to + n..] == hist[to + n..]
    decreases n
  {
    if n > 0 {
      CopyKeepsFuture(hist[to := hist[from]], to + 1, from + 1, n - 1);
    }
  }

  lemma {:induction false} CopyIsRepeat(hist: seq<byte>, to: nat, d: nat, n: nat)
    requires to + n <= |hist| && 1 <= d <= to
    ensures CopyBytes(hist, to, to - d, n)[..to + n] == hist[..to] + Repeat(hist[..to], d, n)
    ensures CopyBytes(hist, to, to - d, n)[to + n..] == hist[to + n..]
  {
    var out := CopyBytes(hist, to, to - d, n);
    CopyKeepsPast(hist, to, to - d, n);
    CopyKeepsFuture(hist, to, to - d, n);
    forall j | 0 <= j < n ensures out[to..to + n][j] == Repeat(hist[..to], d, n)[j] {
      CopyIsPeriodic(hist, to, d, n, j);
    }
    assert out[to..to + n] == Repeat(hist[..to], d, n);
    assert out[..to + n] == out[..to] + out[to..to + n];
  }

  /** The masked index is the byte dist back exactly when that byte is inside the
      history and below the mask. */
  lemma {:induction false} MatchIndexIntended(big: bool, off: nat, dist: nat)
    ensures MatchIndex(big, off, dist) == off - dist <==> 0 <= off - dist <= Mask(big)
  {
  }

  ghost predicate Padding(pad: seq<bool>) { |pad| < 8 && pad == Zeros(|pad|) }

  lemma {:induction false} PaddingParses(big: bool, pad: seq<bool>)
    requires Padding(pad)
    ensures ParseToken(big, pad) == End
  {
    ValueZeros(|pad|);
  }

  /** The bytes one token appends to the window w. */
  function Appended(w: seq<byte>, t: Token): seq<byte>
    requires t.Match? ==> 1 <= t.dist <= |w|
  {
    match t
    case Literal(b) => [b]
    case Match(dist, len) => Repeat(w, dist, len)
  }

  lemma {:induction false} ExecReplays(big: bool, hist: seq<byte>, off: nat, t: Token)
    requires |hist| == DICT_SIZE && off <= DICT_SIZE && ValidToken(big, off, t)
    ensures var r := Exec(big, hist, off, t);
            r.Done? && r.hist[..r.off] == hist[..off] + Appended(hist[..off], t) && r.hist[r.off..] == hist[r.off..]
  {
    if t.Match? {
      MatchIndexIntended(big, off, t.dist);
      CopyIsRepeat(hist, off, t.dist, t.len);
    }
  }

  lemma {:induction false} ExpandStep(big: bool, hist: seq<byte>, off: nat, bits: seq<bool>, t: Token, rest: seq<bool>)
    requires |hist| == DICT_SIZE && off <= DICT_SIZE
    requires ParseToken(big, bits) == Item(t, rest)
    ensures var s := Exec(big, hist, off, t);
            Expand(big, hist, off, bits) == if s.Done? then Expand(big, s.hist, s.off, rest) else s
  {
  }

  lemma {:induction false} SuffixOfSuffix(a: seq<byte>, b: seq<byte>, m: nat, n: nat)
    requires m <= n <= |a| && |a| == |b| && a[m..] == b[m..]
    ensures a[n..] == b[n..]
  {
    assert a[n..] == a[m..][n - m..] && b[n..] == b[m..][n - m..];
  }

  /** What running the tokens must leave behind. */
  ghost predicate Replayed(r: Run, hist: seq<byte>, off: nat, ts: seq<Token>)
    requires off <= |hist|
  {
    && r.Done? && off <= r.off <= |r.hist| == |hist|
    && r.hist[..r.off] == Replay(hist[..off], ts)
    && r.hist[r.off..] == hist[r.off..]
  }

  lemma {:induction false} ReplayedNil(big: bool, hist: seq<byte>, off: nat, pad: seq<bool>)
    requires |hist| == DICT_SIZE && off <= DICT_SIZE && Padding(pad)
    ensures Replayed(Expand(big, hist, off, Codes(big, []) + pad), hist, off, [])
  {
    PaddingParses(big, pad);
    assert Codes(big, []) + pad == pad;
  }

  lemma {:induction false} ReplayedCons(big: bool, hist: seq<byte>, off: nat, ts: seq<Token>, pad: seq<bool>)
    requires |hist| == DICT_SIZE && off <= DICT_SIZE && ts != [] && ValidToken(big, off, ts[0])
    requires var s := Exec(big, hist, off, ts[0]);
             s.Done? && Replayed(Expand(big, s.hist, s.off, Codes(big, ts[1..]) + pad), s.hist, s.off, ts[1..])
    ensures Replayed(Expand(big, hist, off, Codes(big, ts) + pad), hist, off, ts)
  {
    hide *;
    var t, rest := ts[0], Codes(big, ts[1..]) + pad;
    CodesCons(big, ts, pad);
    TokenRoundTrip(big, off, t, rest);
    ExpandStep(big, hist, off, Code(big, t) + rest, t, rest);
    var s := Exec(big, hist, off, t);
    ReplayedExtends(big, hist, off, ts, Expand(big, s.hist, s.off, rest));
  }

  lemma {:induction false} ReplayedExtends(big: bool, hist: seq<byte>, off: nat, ts: seq<Token>, r: Run)
    requires |hist| == DICT_SIZE && off <= DICT_SIZE && ts != [] && ValidToken(big, off, ts[0])
    requires var s := Exec(big, hist, off, ts[0]); s.Done? && Replayed(r, s.hist, s.off, ts[1..])
    ensures Replayed(r, hist, off, ts)
  {
    ExecReplays(big, hist, off, ts[0]);
    var s := Exec(big, hist, off, ts[0]);
    SuffixOfSuffix(s.hist, hist, s.off, r.off);
  }

  lemma {:induction false} CodesCons(big: bool, ts: seq<Token>, pad: seq<bool>)
    requires ts != []
    ensures Codes(big, ts) + pad == Code(big, ts[0]) + (Codes(big, ts[1..]) + pad)
  {
  }

  /** Every valid token list, packed with padding, expands to its LZ77 replay and
      leaves the rest of the history alone. */
  lemma {:induction false} ExpandReplays(big: bool, hist: seq<byte>, off: nat, ts: seq<Token>, pad: seq<bool>)
    requires |hist| == DICT_SIZE && off <= DICT_SIZE
    requires ValidTokens(big, off, ts) && Padding(pad)
    ensures Replayed(Expand(big, hist, off, Codes(big, ts) + pad), hist, off, ts)
    decreases ts
  {
    hide *;
    if ts == [] {
      ReplayedNil(big, hist, off, pad);
    } else {
      ValidHead(big, off, ts);
      ExecReplays(big, hist, off, ts[0]);
      var s := Exec(big, hist, off, ts[0]);
      ExpandReplays(big, s.hist, s.off, ts[1..], pad);
      ReplayedCons(big, hist, off, ts, pad);
    }
  }

  lemma {:induction false} ValidHead(big: bool, off: nat, ts: seq<Token>)
    requires ts != [] && ValidTokens(big, off, ts)
    ensures ValidToken(big, off, ts[0]) && ValidTokens(big, off + Size(ts[0]), ts[1..])
  {
  }

  /** No input, well-formed or not, changes history below the write position. */
  lemma {:induction false} ExpandKeepsPast(big: bool, hist: seq<byte>, off: nat, bits: seq<bool>)
    requires |hist| == DICT_SIZE && off <= DICT_SIZE
    ensures Expand(big, hist, off, bits).hist[..off] == hist[..off]
    decreases |bits|
  {
    var p := ParseToken(big, bits);
    if p.Item? {
      ExecKeepsPast(big, hist, off, p.value);
      var s := Exec(big, hist, off, p.value);
      if s.Done? {
        ExpandKeepsPast(big, s.hist, s.off, p.rest);
        PrefixOfPrefix(Expand(big, hist, off, bits).hist, s.hist, off, s.off);
      }
    }
  }

  lemma {:induction false} ExecKeepsPast(big: bool, hist: seq<byte>, off: nat, t: Token)
    requires |hist| == DICT_SIZE && off <= DICT_SIZE
    ensures Exec(big, hist, off, t).hist[..off] == hist[..off]
  {
    if t.Match? && off + t.len < DICT_SIZE {
      var k := MatchIndex(big, off, t.dist);
      CopyKeepsPast(hist, off, k, if k + t.len > DICT_SIZE then DICT_SIZE - k else t.len);
    }
  }

  lemma {:induction false} PrefixOfPrefix(a: seq<byte>, b: seq<byte>, m: nat, n: nat)
    requires m <= n <= |a| && n <= |b| && a[..n] == b[..n]
    ensures a[..m] == b[..m]
  {
    assert a[..m] == a[..n][..m] && b[..m] == b[..n][..m];
  }

  lemma {:induction false} ReplayConcat(w: seq<byte>, ts: seq<Token>, us: seq<Token>, big: bool)
    requires ValidTokens(big, |w|, ts)
    ensures Replay(w, ts + us) == Replay(Replay(w, ts), us)
    decreases ts
  {
    if ts == [] {
      assert ts + us == us;
    } else {
      var w' := w + (match ts[0] case Literal(b) => [b] case Match(dist, len) => Repeat(w, dist, len));
      assert (ts + us)[1..] == ts[1..] + us;
      ReplayConcat(w', ts[1..], us, big);
    }
  }

  lemma {:induction false} ReplayExtends(w: seq<byte>, ts: seq<Token>)
    ensures w <= Replay(w, ts)
    decreases ts
  {
    if ts != [] {
      match ts[0]
      case Literal(b) => ReplayExtends(w + [b], ts[1..]);
      case Match(dist, len) =>
        if 1 <= dist <= |w| { ReplayExtends(w + Repeat(w, dist, len), ts[1..]); }
    }
  }
}
