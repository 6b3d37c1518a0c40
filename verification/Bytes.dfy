/** Bytes of a 64-bit little-endian host: memory is a sequence of bytes, integers are
    little-endian digit strings in base 256. */
module Bytes {
  type byte = b: int | 0 <= b < 256

  const POW64: nat := 0x1_0000_0000_0000_0000

  function Pow256(n: nat): (p: nat)
    ensures p > 0
  {
    if n == 0 then 1 else 256 * Pow256(n - 1)
  }

  /** The number a little-endian byte string denotes. */
  function FromLE(s: seq<byte>): (v: nat)
    ensures v < Pow256(|s|)
  {
    if s == [] then 0 else s[0] + 256 * FromLE(s[1..])
  }

  /** The low n bytes of v, least significant first (a C store truncates the same way). */
  function ToLE(v: nat, n: nat): (s: seq<byte>)
    ensures |s| == n
  {
    if n == 0 then [] else [v % 256] + ToLE(v / 256, n - 1)
  }

  lemma {:induction false} FromToLE(v: nat, n: nat)
    requires v < Pow256(n)
    ensures FromLE(ToLE(v, n)) == v
  {
    if n == 0 {
    } else {
      assert v / 256 < Pow256(n - 1);
      FromToLE(v / 256, n - 1);
      assert ToLE(v, n)[1..] == ToLE(v / 256, n - 1);
    }
  }

  lemma {:induction false} ToFromLE(s: seq<byte>)
    ensures ToLE(FromLE(s), |s|) == s
  {
    if s == [] {
    } else {
      ToFromLE(s[1..]);
      assert s == [s[0]] + s[1..];
    }
  }

  lemma Pow64Is()
    ensures Pow256(8) == POW64
  {
    assert Pow256(4) == 0x1_0000_0000;
    assert Pow256(8) == 256 * (256 * (256 * (256 * Pow256(4))));
  }

  /** n bytes of memory from address a; memory outside the image reads as zero. */
  function Load(mem: seq<byte>, a: nat, n: nat): (s: seq<byte>)
    ensures |s| == n
    ensures a + n <= |mem| ==> s == mem[a..a + n]
  {
    seq(n, i requires 0 <= i < n => if a + i < |mem| then mem[a + i] else 0)
  }

  /** The image with the bytes s stored at a; stores outside the image are dropped. */
  function Store(mem: seq<byte>, a: nat, s: seq<byte>): (m: seq<byte>)
    ensures |m| == |mem|
    ensures a + |s| <= |mem| ==> m[a..a + |s|] == s
    ensures forall i :: 0 <= i < |mem| && (i < a || a + |s| <= i) ==> m[i] == mem[i]
  {
    if a + |s| <= |mem| then mem[..a] + s + mem[a + |s|..] else mem
  }

  function LoadPtr(mem: seq<byte>, a: nat): (v: nat)
    ensures v < POW64
  {
    Pow64Is();
    FromLE(Load(mem, a, 8))
  }

  function StorePtr(mem: seq<byte>, a: nat, v: nat): (m: seq<byte>)
    ensures |m| == |mem|
    ensures forall i :: 0 <= i < |mem| && (i < a || a + 8 <= i) ==> m[i] == mem[i]
  {
    Store(mem, a, ToLE(v, 8))
  }

  lemma LoadStorePtr(mem: seq<byte>, a: nat, v: nat)
    requires a + 8 <= |mem| && v < POW64
    ensures LoadPtr(StorePtr(mem, a, v), a) == v
  {
    Pow64Is();
    FromToLE(v, 8);
  }
}
