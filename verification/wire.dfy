/** Bytes, little-endian integers and the buffer that both ends encode into. */
module Wire {
  import opened Errors
  import opened Arith

  type byte = x: int | 0 <= x < 256
  type u32 = x: int | 0 <= x < 0x1_0000_0000
  type i32 = x: int | -0x8000_0000 <= x < 0x8000_0000
  type u64 = x: int | 0 <= x < 0x1_0000_0000_0000_0000

  const U32_MAX: nat := 0xFFFF_FFFF
  const I32_MAX: nat := 0x7FFF_FFFF
  const HIGH_BIT: nat := 0x8000_0000

  const RPC_MAGIC: nat := 19749
  const RPC_VERSION_1: nat := 1

  function OptBytes(b: Option<seq<byte>>): seq<byte> {
    if b.Some? then b.value else []
  }

  /** Reading the same 32 bits as a signed or an unsigned number. */
  function AsI32(n: u32): i32 {
    if n < HIGH_BIT then n else n - 0x1_0000_0000
  }

  function AsU32(n: i32): u32 {
    if n >= 0 then n else n + 0x1_0000_0000
  }

  function Pow256(w: nat): nat {
    if w == 0 then 1 else 256 * Pow256(w - 1)
  }

  function LE(n: nat, w: nat): (s: seq<byte>)
    ensures |s| == w
  {
    if w == 0 then [] else [n % 256] + LE(n / 256, w - 1)
  }

  function DeLE(s: seq<byte>): nat {
    if s == [] then 0 else s[0] + 256 * DeLE(s[1..])
  }

  lemma {:induction false} LERoundTrip(n: nat, w: nat)
    requires n < Pow256(w)
    ensures DeLE(LE(n, w)) == n
  {
    if w > 0 {
      LERoundTrip(n / 256, w - 1);
      assert LE(n, w)[1..] == LE(n / 256, w - 1);
    }
  }

  lemma DivTwice(n: nat, p: nat)
    requires p > 0
    ensures n / 256 / p == n / (256 * p)
  {
    var a, b := n / 256, n / 256 / p;
    assert a == b * p + a % p;
    assert 256 * (b * p) == b * (256 * p);
    DivUnique(n, 256 * p, b, 256 * (a % p) + n % 256);
  }

  lemma {:induction false} Pow256Positive(w: nat)
    ensures Pow256(w) > 0
  {
    if w > 0 {
      Pow256Positive(w - 1);
    }
  }

  /** Byte i of a little-endian field is digit i of the number to base 256. */
  lemma {:induction false} LEByte(n: nat, w: nat, i: nat)
    requires i < w
    ensures Pow256(i) > 0 && LE(n, w)[i] == n / Pow256(i) % 256
  {
    Pow256Positive(i);
    if i > 0 {
      LEByte(n / 256, w - 1, i - 1);
      DivTwice(n, Pow256(i - 1));
    }
  }

  lemma {:induction false} DeLEBound(s: seq<byte>)
    ensures DeLE(s) < Pow256(|s|)
  {
    if s != [] {
      DeLEBound(s[1..]);
    }
  }

  lemma TwoBytes(a: byte, b: byte)
    ensures DeLE([a, b]) == a + 256 * b
  {
    assert [a, b][1..] == [b];
    assert DeLE([b]) == b + 256 * DeLE([]);
  }

  lemma MagicBytes()
    ensures LE(RPC_MAGIC, 2) == [0x25, 0x4D]
  {
    assert LE(RPC_MAGIC, 2) == [RPC_MAGIC % 256] + LE(RPC_MAGIC / 256, 1);
  }

  lemma Widths()
    ensures Pow256(2) == 0x1_0000 && Pow256(4) == 0x1_0000_0000 && Pow256(8) == 0x1_0000_0000_0000_0000
  {
  }

  /** A field of four or eight bytes reads back as the number that was written. */
  lemma FieldRoundTrip(n: nat)
    ensures n < 0x1_0000 ==> DeLE(LE(n, 2)) == n
    ensures n < 0x1_0000_0000 ==> DeLE(LE(n, 4)) == n
    ensures n < 0x1_0000_0000_0000_0000 ==> DeLE(LE(n, 8)) == n
  {
    Widths();
    if n < 0x1_0000 { LERoundTrip(n, 2); }
    if n < 0x1_0000_0000 { LERoundTrip(n, 4); }
    if n < 0x1_0000_0000_0000_0000 { LERoundTrip(n, 8); }
  }

  function U32At(s: seq<byte>, off: nat): (n: u32)
    requires off + 4 <= |s|
  {
    Widths();
    DeLEBound(s[off..off + 4]);
    DeLE(s[off..off + 4])
  }

  function U64At(s: seq<byte>, off: nat): (n: u64)
    requires off + 8 <= |s|
  {
    Widths();
    DeLEBound(s[off..off + 8]);
    DeLE(s[off..off + 8])
  }

  lemma Split(a: seq<byte>, b: seq<byte>)
    ensures (a + b)[..|a|] == a && (a + b)[|a|..] == b
  {
  }

  lemma Extend(a: seq<byte>, b: seq<byte>)
    ensures forall i, j :: 0 <= i <= j <= |a| ==> (a + b)[i..j] == a[i..j]
    ensures forall i :: 0 <= i < |a| ==> (a + b)[i] == a[i]
    ensures (a + b)[|a|..|a| + |b|] == b
  {
  }

  /** Vec::resize(n, 0). */
  function Resize(s: seq<byte>, n: nat): (r: seq<byte>)
    ensures |r| == n
  {
    if |s| >= n then s[..n] else s + seq(n - |s|, _ => 0)
  }

  /** The growable vector that headers are written into in place. */
  class Buffer {
    var data: seq<byte>

    constructor ()
      ensures data == []
    {
      data := [];
    }

    /** An unchecked length change: whatever memory held (`junk`) becomes content. */
    method SetLen(n: nat, junk: seq<byte>)
      requires |junk| >= n
      modifies this
      ensures |data| == n
    {
      data := (data + junk)[..n];
    }

    method Put(off: nat, bs: seq<byte>)
      requires off + |bs| <= |data|
      modifies this
      ensures data == old(data)[..off] + bs + old(data)[off + |bs|..]
    {
      data := data[..off] + bs + data[off + |bs|..];
    }

    /** Overwrite the field that follows the already written prefix `done`. */
    method PutNext(off: nat, bs: seq<byte>, ghost done: seq<byte>)
      requires off + |bs| <= |data| && data[..off] == done
      modifies this
      ensures |data| == |old(data)| && data[..off + |bs|] == done + bs
      ensures data[off + |bs|..] == old(data)[off + |bs|..]
      ensures forall n :: off + |bs| <= n <= |data| ==> data[n..] == old(data)[n..]
    {
      Put(off, bs);
    }

    method Append(bs: seq<byte>)
      modifies this
      ensures data == old(data) + bs
    {
      data := data + bs;
    }
  }
}
