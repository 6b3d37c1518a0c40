/** What conversion does to the bytes of an integer: put in order, cut off, or filled up with
    the sign. */
module ConvertBytes {
  import opened Bytes
  import opened ByteOrder
  import opened FieldConvert

  // ----- numbers and their bytes

  lemma {:induction false} JoinedValue(x: seq<byte>, y: seq<byte>)
    ensures FromLE(x + y) == FromLE(x) + Pow256(|x|) * FromLE(y)
  {
    if x == [] {
      assert x + y == y;
    } else {
      assert (x + y)[1..] == x[1..] + y;
      JoinedValue(x[1..], y);
      Shifted(x[0], FromLE(x[1..]), Pow256(|x| - 1), FromLE(y));
    }
  }

  lemma Shifted(a: int, b: int, p: int, q: int)
    ensures a + 256 * (b + p * q) == a + 256 * b + 256 * p * q
  {
  }

  lemma {:induction false} PowSum(m: nat, n: nat)
    ensures Pow256(m + n) == Pow256(m) * Pow256(n)
  {
    if m > 0 {
      PowSum(m - 1, n);
      Associate(256, Pow256(m - 1), Pow256(n));
    }
  }

  lemma Associate(a: int, b: int, c: int)
    ensures a * (b * c) == (a * b) * c
  {
  }

  function Filled(n: nat, v: byte): (s: seq<byte>)
    ensures |s| == n
  {
    seq(n, _ => v)
  }

  lemma {:induction false} ZeroValue(n: nat)
    ensures FromLE(Filled(n, 0)) == 0
  {
    if n > 0 {
      assert Filled(n, 0)[1..] == Filled(n - 1, 0);
      ZeroValue(n - 1);
    }
  }

  lemma {:induction false} OnesValue(n: nat)
    ensures FromLE(Filled(n, 255)) == Pow256(n) - 1
  {
    if n > 0 {
      assert Filled(n, 255)[1..] == Filled(n - 1, 255);
      OnesValue(n - 1);
    }
  }

  /** A number is negative in two's complement exactly when its last byte is 128 or more. */
  lemma TopByte(x: seq<byte>)
    requires x != []
    ensures 2 * FromLE(x) >= Pow256(|x|) <==> x[|x| - 1] >= 128
  {
    var n := |x| - 1;
    var p := Pow256(n);
    JoinedValue(x[..n], x[n..]);
    assert x == x[..n] + x[n..];
    assert x[n..] == [x[n]] && x[n..][1..] == [];
    assert FromLE(x[n..]) == x[n];
    hide Pow256, FromLE;
    assert Pow256(|x|) == 256 * p by { PowNext(n); }
    TopCase(p, FromLE(x[..n]), x[n]);
  }

  lemma PowNext(n: nat)
    ensures Pow256(n + 1) == 256 * Pow256(n)
  {
  }

  lemma TopCase(p: int, low: int, top: int)
    requires 0 <= low < p && 0 <= top < 256
    ensures 2 * (low + p * top) >= 256 * p <==> top >= 128
  {
    if top >= 128 { MulAtMost(128, top, p); } else { MulAtMost(top, 127, p); }
  }

  lemma ModOf(v: int, p: int, k: int, r: int)
    requires p > 0 && v == r + p * k && 0 <= r < p
    ensures v % p == r
  {
    var q, m := v / p, v % p;
    assert v == q * p + m;
    if q < k { MulAtMost(q + 1, k, p); }
    if k < q { MulAtMost(k + 1, q, p); }
  }

  // ----- the bytes of a converted integer

  /** Cut off at the top. */
  lemma CutShort(x: seq<byte>, v: int, m: nat)
    requires 0 < m <= |x| && (v == FromLE(x) || v == FromLE(x) - Pow256(|x|))
    ensures Cut(v, m) == x[..m]
  {
    hide Pow256, FromLE, ToLE;
    var n := |x|;
    var low, high := FromLE(x[..m]), FromLE(x[m..]);
    JoinedValue(x[..m], x[m..]);
    assert x == x[..m] + x[m..];
    PowSum(m, n - m);
    var k := if v == FromLE(x) then high else high - Pow256(n - m);
    Distribute(Pow256(m), high, Pow256(n - m));
    ModOf(v, Pow256(m), k, low);
    ToFromLE(x[..m]);
  }

  lemma Distribute(a: int, b: int, c: int)
    ensures a * (b - c) == a * b - a * c
  {
  }

  /** Filled up with 0 or, when negative, with 255. */
  lemma CutLong(x: seq<byte>, v: int, m: nat)
    requires 0 < |x| <= m && (v == FromLE(x) || v == FromLE(x) - Pow256(|x|))
    ensures Cut(v, m) == x + Filled(m - |x|, if v < 0 then 255 else 0)
  {
    hide Pow256, FromLE, ToLE;
    var n, k := |x|, m - |x|;
    PowSum(n, k);
    assert FromLE(x) < Pow256(n);
    var y := x + Filled(k, if v < 0 then 255 else 0);
    if v < 0 {
      JoinedValue(x, Filled(k, 255));
      OnesValue(k);
      Distribute(Pow256(n), Pow256(k), 1);
      ModOf(v, Pow256(m), -1, FromLE(y));
    } else {
      JoinedValue(x, Filled(k, 0));
      ZeroValue(k);
      ModOf(v, Pow256(m), 0, FromLE(y));
    }
    ToFromLE(y);
  }

  lemma {:induction false} ReversedAt(s: seq<byte>, i: nat)
    requires i < |s|
    ensures Reverse(s)[i] == s[|s| - 1 - i]
  {
    if i < |s| - 1 { ReversedAt(s[1..], i); }
  }

  /** Byte i of the source in native order. */
  function Native(b: seq<byte>, swap: bool, i: nat): byte
    requires i < |b|
  {
    if swap then b[|b| - 1 - i] else b[i]
  }

  /** Main result, for integers with a C type on both sides: byte i is byte i of the source in
      native order; beyond the end of the source it is 0, or 255 for a negative number. */
  lemma ConvertedByte(b: seq<byte>, swap: bool, signed: bool, m: nat, i: nat)
    requires |b| in {1, 2, 4, 8} && m in {1, 2, 4, 8} && i < m
    ensures Converted(b, swap, signed, m)[i] ==
      if i < |b| then Native(b, swap, i)
      else if signed && Native(b, swap, |b| - 1) >= 128 then 255 else 0
  {
    hide Pow256, FromLE, Reverse, Cut;
    var x := if swap then Reverse(b) else b;
    if i < |b| && swap { ReversedAt(b, i); }
    if swap { ReversedAt(b, |b| - 1); }
    if |b| != m {
      var v := Value(b, swap, signed);
      TopByte(x);
      assert v < 0 <==> signed && x[|b| - 1] >= 128 by { Negative(x, signed, v); }
      if m < |b| { CutShort(x, v, m); } else { CutLong(x, v, m); }
    }
  }

  lemma Negative(x: seq<byte>, signed: bool, v: int)
    requires x != [] && v == if signed then SignedOf(FromLE(x), |x|) else FromLE(x)
    ensures v < 0 <==> signed && x[|x| - 1] >= 128
    ensures v == FromLE(x) || v == FromLE(x) - Pow256(|x|)
  {
    TopByte(x);
  }

  /** A 16-byte integer is cut to its low 8 bytes first. */
  lemma WideByte(b: seq<byte>, swap: bool, signed: bool, m: nat, i: nat)
    requires |b| == 16 && m in {1, 2, 4, 8} && i < m
    ensures Converted(b, swap, signed, m)[i] == if swap then b[15 - i] else b[i]
  {
    hide Pow256, FromLE, Reverse, Cut;
    var low := if swap then Reverse(b[8..]) else b[..8];
    if swap { ReversedAt(b[8..], i); }
    var v := Value(b, swap, signed);
    Negative(low, signed, v);
    CutShort(low, v, m);
  }

  /** An integer without a C type is read as -1 or 0. */
  lemma OddByte(b: seq<byte>, swap: bool, signed: bool, m: nat, i: nat)
    requires |b| !in {1, 2, 4, 8, 16} && m in {1, 2, 4, 8} && i < m
    ensures Converted(b, swap, signed, m)[i] == if signed then 255 else 0
  {
    hide Pow256, FromLE, ToLE;
    var p := Pow256(m);
    if signed {
      OnesValue(m);
      ModOf(-1, p, -1, p - 1);
      ToFromLE(Filled(m, 255));
    } else {
      ZeroValue(m);
      ModOf(0, p, 0, 0);
      ToFromLE(Filled(m, 0));
    }
  }

  /** Byte i of element e of a converted field, where it lies in the destination, is that byte of
      the element of the source. */
  lemma ElementByte(before: seq<byte>, after: seq<byte>, f: FieldSpec, sb: nat, db: nat, e: nat, i: nat)
    requires FieldHolds(before, after, f, sb, db, f.count) && e < f.count && i < f.destSize
    requires f.srcSize in {1, 2, 4, 8} && f.destSize in {1, 2, 4, 8}
    ensures var from, to := sb + f.srcOffset + e * f.srcSize, db + f.destOffset + e * f.destSize;
      && from + f.srcSize <= |before| && to + f.destSize <= |after|
      && var b := before[from..from + f.srcSize];
         after[to + i] ==
           if i < f.srcSize then Native(b, f.swap, i)
           else if f.signed && Native(b, f.swap, f.srcSize - 1) >= 128 then 255 else 0
  {
    hide Converted, Native;
    assert Holds(before, after, f, sb, db, e);
    var from, to := SrcAt(f, sb, e), DestAt(f, db, e);
    ConvertedByte(before[from..from + f.srcSize], f.swap, f.signed, f.destSize, i);
    assert after[to + i] == after[to..to + f.destSize][i];
  }
}
