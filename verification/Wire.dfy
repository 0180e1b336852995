/** Little-endian integers, and runs of items tagged with a channel. */
module Wire {
  import opened Bits

  const TWO_32 := 0x1_0000_0000

  /** Conversion to uint32. */
  function Uint32(n: int): (w: nat)
    ensures w < TWO_32
    ensures 0 <= n < TWO_32 ==> w == n
  {
    n % TWO_32
  }

  type int16 = n: int | -32768 <= n <= 32767

  /** A byte, and a 16-bit word, as signed numbers, and back. */
  function Int8(b: byte): int { if b >= 128 then b - 256 else b }

  function Int16(w: nat): int16
    requires w < 0x1_0000
  {
    if w >= 0x8000 then w - 0x1_0000 else w
  }

  function Word(n: int16): nat { if n < 0 then n + 0x1_0000 else n }

  function Least(a: nat, b: nat): nat { if a < b then a else b }

  function Repeat<T>(v: T, n: nat): (s: seq<T>)
    ensures |s| == n
  {
    seq(n, _ => v)
  }

  function PutLe16(v: nat): (s: seq<byte>)
    requires v < 0x1_0000
    ensures |s| == 2 && GetLe16(s) == v
  {
    [v % 0x100, v / 0x100]
  }

  function GetLe16(s: seq<byte>): (v: nat)
    requires |s| >= 2
    ensures v < 0x1_0000
  {
    s[0] as nat + 0x100 * (s[1] as nat)
  }

  function PutLe32(v: nat): (s: seq<byte>)
    requires v < TWO_32
    ensures |s| == 4 && GetLe32(s) == v
  {
    var s := PutLe16(v % 0x1_0000) + PutLe16(v / 0x1_0000);
    assert s[..2] == PutLe16(v % 0x1_0000) && s[2..4] == PutLe16(v / 0x1_0000);
    s
  }

  function GetLe32(s: seq<byte>): (v: nat)
    requires |s| >= 4
    ensures v < TWO_32
  {
    GetLe16(s[..2]) + 0x1_0000 * GetLe16(s[2..4])
  }

  /** The two bytes at i are the number, low byte first. */
  predicate WordIs(src: seq<byte>, i: nat, v: nat)
    requires i + 1 < |src|
  {
    (src[i] as int) + 256 * (src[i + 1] as int) == v
  }

  // ---------- tagged runs ----------

  datatype Tagged = Tagged(id: nat, data: seq<byte>)

  /** What a run carries for one channel, in order. */
  function On(run: seq<Tagged>, id: nat): seq<seq<byte>> {
    if run == [] then []
    else (if run[0].id == id then [run[0].data] else []) + On(run[1..], id)
  }

  lemma {:induction false} OnConcat(a: seq<Tagged>, b: seq<Tagged>, id: nat)
    ensures On(a + b, id) == On(a, id) + On(b, id)
  {
    hide *;
    OnCons(a, id);
    OnCons(a + b, id);
    if a == [] {
      assert a + b == b && [] + On(b, id) == On(b, id);
    } else {
      assert (a + b)[1..] == a[1..] + b;
      OnConcat(a[1..], b, id);
      var head := if a[0].id == id then [a[0].data] else [];
      assert (head + On(a[1..], id)) + On(b, id) == head + (On(a[1..], id) + On(b, id));
    }
  }

  lemma {:induction false} OnCons(run: seq<Tagged>, id: nat)
    ensures On(run, id) == if run == [] then [] else (if run[0].id == id then [run[0].data] else []) + On(run[1..], id)
  {
  }

  lemma {:induction false} OnMember(run: seq<Tagged>, id: nat, k: nat)
    requires k < |run| && run[k].id == id
    ensures run[k].data in On(run, id)
  {
    if k > 0 {
      OnMember(run[1..], id, k - 1);
    }
  }
}
