/** Conversion of integer fields of a record, into another buffer or in place. */
module FieldConvert {
  import opened Bytes
  import opened ByteOrder
  import P = Planner

  /** A field to convert: `count` elements, side by side in source and destination. */
  datatype FieldSpec = FieldSpec(srcOffset: nat, destOffset: nat, srcSize: nat, destSize: nat, count: nat, swap: bool, signed: bool)

  /** Integer sizes with a C type. */
  predicate IsWidth(n: nat) {
    n == 1 || n == 2 || n == 4 || n == 8
  }

  /** Two's complement reading of an n-byte value. */
  function SignedOf(v: nat, n: nat): int {
    if 2 * v >= Pow256(n) then v - Pow256(n) else v
  }

  /** The value of an integer field as the converter reads it: 16-byte integers lose their
      high half, other sizes read as -1 or 0. */
  function Value(b: seq<byte>, swap: bool, signed: bool): int {
    if IsWidth(|b|) then
      var v := FromLE(if swap then Reverse(b) else b);
      if signed then SignedOf(v, |b|) else v
    else if |b| == 16 then
      var low := if swap then Reverse(b[8..]) else b[..8];
      if signed then SignedOf(FromLE(low), 8) else FromLE(low)
    else if signed then -1 else 0
  }

  /** The bytes of an integer cut to n bytes. */
  function Cut(v: int, n: nat): (s: seq<byte>)
    ensures |s| == n
  {
    ToLE(v % Pow256(n), n)
  }

  /** A field of `size` bytes is written when it is a copy or has a C type. */
  predicate IsWritten(n: nat, size: nat) {
    n == size || IsWidth(size)
  }

  function Converted(b: seq<byte>, swap: bool, signed: bool, size: nat): (s: seq<byte>)
    ensures |s| == size
  {
    if |b| == size then (if swap then Reverse(b) else b) else Cut(Value(b, swap, signed), size)
  }

  // ----- what a conversion means

  lemma CutValue(v: int, n: nat)
    requires IsWidth(n)
    ensures FromLE(Cut(v, n)) == v % Pow256(n)
    ensures (Value(Cut(v, n), false, true) - v) % Pow256(n) == 0
    ensures 0 <= v < Pow256(n) ==> Value(Cut(v, n), false, false) == v
    ensures 0 <= 2 * v + Pow256(n) && 2 * v < Pow256(n) ==> Value(Cut(v, n), false, true) == v
  {
    hide Pow256, ToLE, FromLE, SignedOf, Cut, Value, Half;
    CutIs(v, n);
    SignedResidue(v, Pow256(n));
    CutReads(v, n);
    if 0 <= v < Pow256(n) { SmallMod(v, Pow256(n)); }
  }

  lemma CutIs(v: int, n: nat)
    ensures FromLE(Cut(v, n)) == v % Pow256(n)
  {
    FromToLE(v % Pow256(n), n);
  }

  lemma CutReads(v: int, n: nat)
    requires IsWidth(n)
    ensures Value(Cut(v, n), false, false) == v % Pow256(n)
    ensures Value(Cut(v, n), false, true) == Half(v % Pow256(n), Pow256(n))
  {
    hide Pow256;
    CutIs(v, n);
  }

  /** A residue read in two's complement. */
  function Half(m: int, p: int): int {
    if 2 * m >= p then m - p else m
  }

  lemma SignedResidue(v: int, p: int)
    requires p > 0
    ensures (Half(v % p, p) - v) % p == 0
    ensures 0 <= 2 * v + p && 2 * v < p ==> Half(v % p, p) == v
  {
    var q, m := v / p, v % p;
    assert v == q * p + m;
    MulMod(-q, p);
    MulMod(-q - 1, p);
    assert m - v == -q * p && m - p - v == (-q - 1) * p;
    if 0 <= 2 * v + p && 2 * v < p {
      if v < 0 { Wrapped(v, p); } else { SmallMod(v, p); }
    }
  }

  lemma Residue(v: int, p: int, r: int)
    requires p > 0 && r == v % p
    ensures (r - v) % p == 0
  {
    assert v == v / p * p + r;
    MulMod(-(v / p), p);
    assert r - v == -(v / p) * p;
  }

  lemma Wrapped(v: int, p: int)
    requires p > 0 && 0 <= 2 * v + p && v < 0
    ensures v % p == v + p && 2 * (v % p) >= p
  {
    assert v == v / p * p + v % p;
    if v / p < -1 { MulAtMost(v / p, -2, p); }
    if v / p >= 0 { MulAtMost(0, v / p, p); }
  }

  lemma MulAtMost(a: int, b: int, p: int)
    requires a <= b && p > 0
    ensures a * p <= b * p
  {
  }

  lemma MulMod(k: int, p: int)
    requires p > 0
    ensures k * p % p == 0
  {
    var r := k * p % p;
    var q := k * p / p;
    assert k * p == q * p + r;
    assert (k - q) * p == r;
    if k > q { MulAtMost(q + 1, k, p); }
    if k < q { MulAtMost(k + 1, q, p); }
  }

  /** A converted integer holds the source value modulo its new width: exactly, when it is
      not narrower. */
  lemma ConvertedValue(b: seq<byte>, swap: bool, signed: bool, size: nat)
    requires IsWidth(|b|) && IsWidth(size)
    ensures var v := Value(b, swap, signed); var r := Value(Converted(b, swap, signed, size), false, signed);
      && (r - v) % Pow256(size) == 0
      && (size >= |b| ==> r == v)
  {
    hide Pow256, ToLE, FromLE, Reverse;
    var c := Converted(b, swap, signed, size);
    var v := Value(b, swap, signed);
    if |b| == size {
      MulMod(0, Pow256(size));
    } else {
      CutValue(v, size);
      Residue(v, Pow256(size), v % Pow256(size));
      if size > |b| { PowGrows(|b|, size); }
    }
  }

  lemma PowGrows(m: nat, n: nat)
    requires m < n
    ensures 2 * Pow256(m) <= Pow256(n)
  {
    if m + 1 < n { PowGrows(m, n - 1); }
  }

  /** Widening and narrowing back gives the field again, in native order. */
  lemma WidenNarrow(b: seq<byte>, signed: bool, size: nat)
    requires IsWidth(|b|) && IsWidth(size) && size > |b|
    ensures Converted(Converted(b, false, signed, size), false, signed, |b|) == b
  {
    hide Pow256, ToLE, FromLE, Reverse;
    var v := Value(b, false, signed);
    ConvertedValue(b, false, signed, size);
    assert Value(Converted(b, false, signed, size), false, signed) == v;
    var p := Pow256(|b|);
    assert v % p == FromLE(b) by {
      if signed && 2 * FromLE(b) >= p { Wrapped(v, p); } else { SmallMod(v, p); }
    }
    ToFromLE(b);
  }

  lemma SmallMod(v: int, p: int)
    requires 0 <= v < p
    ensures v % p == v
  {
  }

  // ----- one element

  /** Source and destination are the same place, or apart. */
  ghost predicate InPlaceOrApart(src: array<byte>, so: nat, n: nat, dest: array<byte>, at: nat, size: nat) {
    src != dest || so == at || so + n <= at || at + size <= so
  }

  method ConvertElement(src: array<byte>, so: nat, n: nat, dest: array<byte>, at: nat, size: nat, swap: bool, signed: bool)
    requires so + n <= src.Length && at + size <= dest.Length && InPlaceOrApart(src, so, n, dest, at, size)
    modifies dest
    ensures IsWritten(n, size) ==> dest[at..at + size] == Converted(old(src[so..so + n]), swap, signed, size)
    ensures !IsWritten(n, size) ==> dest[..] == old(dest[..])
    ensures forall i :: 0 <= i < dest.Length && (i < at || at + size <= i) ==> dest[i] == old(dest[i])
  {
    ghost var b := src[so..so + n];
    if n == size {
      if swap {
        SwapInto(src, so, dest, at, size);
      } else if src != dest || so != at {
        forall i | 0 <= i < size {
          dest[at + i] := src[so + i];
        }
        assert dest[at..at + size] == b;
      }
    } else if IsWidth(size) {
      var v := Value(src[so..so + n], swap, signed);
      var s := Cut(v, size);
      forall i | 0 <= i < size {
        dest[at + i] := s[i];
      }
      assert dest[at..at + size] == s;
    }
  }

  lemma {:induction false} ReverseAt(s: seq<byte>, k: nat)
    requires k < |s|
    ensures Reverse(s)[k] == s[|s| - 1 - k]
  {
    if k < |s| - 1 { ReverseAt(s[1..], k); }
  }

  /** The state of the exchange of the n bytes b at so into those at `at`: i from either end
      are done, the source bytes between are still there, nothing else has changed. */
  ghost predicate Swapping(b: seq<byte>, src: seq<byte>, so: nat, dest: seq<byte>, at: nat, dest0: seq<byte>, i: nat) {
    var n := |b|;
    && so + n <= |src| && at + n <= |dest| == |dest0| && i <= n
    && (forall k :: at <= k < at + i ==> dest[k] == b[n - 1 - (k - at)])
    && (forall k :: at + n - i <= k < at + n ==> dest[k] == b[n - 1 - (k - at)])
    && (forall k :: so + i <= k < so + n - i ==> src[k] == b[k - so])
    && (forall k :: 0 <= k < |dest| && (k < at || at + n <= k) ==> dest[k] == dest0[k])
  }

  lemma SwappingNext(b: seq<byte>, src: seq<byte>, so: nat, dest: seq<byte>, at: nat, dest0: seq<byte>, i: nat, one: bool)
    requires Swapping(b, src, so, dest, at, dest0, i) && i < |b| / 2
    requires if one then src == dest && (so == at || so + |b| <= at || at + |b| <= so) else true
    ensures var dest2 := dest[at + |b| - i - 1 := src[so + i]][at + i := src[so + |b| - i - 1]];
      Swapping(b, if one then dest2 else src, so, dest2, at, dest0, i + 1)
  {
  }

  lemma Swapped(b: seq<byte>, src: seq<byte>, so: nat, dest: seq<byte>, at: nat, dest0: seq<byte>)
    requires Swapping(b, src, so, dest, at, dest0, |b| / 2)
    ensures var dest2 := if |b| % 2 != 0 then dest[at + |b| / 2 := src[so + |b| / 2]] else dest;
      && at + |b| <= |dest2| == |dest0| && dest2[at..at + |b|] == Reverse(b)
      && forall i :: 0 <= i < |dest2| && (i < at || at + |b| <= i) ==> dest2[i] == dest0[i]
  {
    var dest2 := if |b| % 2 != 0 then dest[at + |b| / 2 := src[so + |b| / 2]] else dest;
    IsReverse(b, dest2[at..at + |b|]);
  }

  /** Exchange the bytes from both ends to the middle. */
  method SwapInto(src: array<byte>, so: nat, dest: array<byte>, at: nat, n: nat)
    requires so + n <= src.Length && at + n <= dest.Length && InPlaceOrApart(src, so, n, dest, at, n)
    modifies dest
    ensures dest[at..at + n] == Reverse(old(src[so..so + n]))
    ensures forall i :: 0 <= i < dest.Length && (i < at || at + n <= i) ==> dest[i] == old(dest[i])
  {
    hide Swapping, Reverse;
    ghost var b, dest0 := src[..][so..so + n], dest[..];
    SwappingStart(src[..], so, n, dest0, at);
    var i := 0;
    while i < n / 2
      invariant 0 <= i <= n / 2
      invariant Swapping(b, src[..], so, dest[..], at, dest0, i)
    {
      SwapTwo(src, so, dest, at, n, i, b, dest0);
      i := i + 1;
    }
    ghost var d := dest[..];
    Swapped(b, src[..], so, d, at, dest0);
    if n % 2 != 0 {
      dest[at + n / 2] := src[so + n / 2];
    }
    assert n % 2 == 0 ==> dest[..] == d;
    assert dest[at..at + n] == dest[..][at..at + n];
    assert forall k :: 0 <= k < dest.Length ==> dest[k] == dest[..][k];
  }

  method SwapTwo(src: array<byte>, so: nat, dest: array<byte>, at: nat, n: nat, i: nat, ghost b: seq<byte>, ghost dest0: seq<byte>)
    requires so + n <= src.Length && at + n <= dest.Length && InPlaceOrApart(src, so, n, dest, at, n)
    requires n == |b| && i < n / 2 && Swapping(b, src[..], so, dest[..], at, dest0, i)
    modifies dest
    ensures Swapping(b, src[..], so, dest[..], at, dest0, i + 1)
  {
    hide Swapping;
    ghost var s, d := src[..], dest[..];
    SwappingNext(b, s, so, d, at, dest0, i, src == dest);
    var tmp := src[so + n - i - 1];
    dest[at + n - i - 1] := src[so + i];
    dest[at + i] := tmp;
    ghost var d2 := d[at + n - i - 1 := s[so + i]][at + i := s[so + n - i - 1]];
    assert dest[..] == d2;
    if src == dest { assert src[..] == d2; } else { assert src[..] == s; }
  }

  lemma SwappingStart(src: seq<byte>, so: nat, n: nat, dest: seq<byte>, at: nat)
    requires so + n <= |src| && at + n <= |dest|
    ensures Swapping(src[so..so + n], src, so, dest, at, dest, 0)
  {
  }

  lemma IsReverse(b: seq<byte>, s: seq<byte>)
    requires |s| == |b| && forall k :: 0 <= k < |b| ==> s[k] == b[|b| - 1 - k]
    ensures s == Reverse(b)
  {
    forall k: nat | k < |b|
      ensures s[k] == Reverse(b)[k]
    {
      ReverseAt(b, k);
    }
  }

  // ----- records of integer fields

  function SrcAt(f: FieldSpec, base: nat, e: nat): nat {
    base + f.srcOffset + e * f.srcSize
  }

  function DestAt(f: FieldSpec, base: nat, e: nat): nat {
    base + f.destOffset + e * f.destSize
  }

  function SrcEnd(f: FieldSpec, base: nat): nat {
    SrcAt(f, base, f.count)
  }

  function DestEnd(f: FieldSpec, base: nat): nat {
    DestAt(f, base, f.count)
  }

  /** Element e of the field in `after` is the converted element of `before`. */
  ghost predicate Holds(before: seq<byte>, after: seq<byte>, f: FieldSpec, sb: nat, db: nat, e: nat) {
    && SrcAt(f, sb, e) + f.srcSize <= |before| && DestAt(f, db, e) + f.destSize <= |after|
    && (IsWritten(f.srcSize, f.destSize) ==>
          after[DestAt(f, db, e)..DestAt(f, db, e) + f.destSize]
            == Converted(before[SrcAt(f, sb, e)..SrcAt(f, sb, e) + f.srcSize], f.swap, f.signed, f.destSize))
  }

  ghost predicate FieldHolds(before: seq<byte>, after: seq<byte>, f: FieldSpec, sb: nat, db: nat, n: nat) {
    forall e: nat :: e < n ==> Holds(before, after, f, sb, db, e)
  }

  /** Only bytes from lo to hi changed. */
  ghost predicate OnlyIn(before: seq<byte>, after: seq<byte>, lo: nat, hi: nat) {
    |after| == |before| && forall i :: 0 <= i < |before| && (i < lo || hi <= i) ==> after[i] == before[i]
  }

  /** A field that is converted in place stays where it is; only single elements change size. */
  predicate InPlace(f: FieldSpec) {
    f.srcOffset == f.destOffset && (f.count == 1 || f.srcSize == f.destSize)
  }

  lemma ElementPlaces(f: FieldSpec, sb: nat, db: nat, e: nat)
    requires e < f.count
    ensures SrcAt(f, sb, e) + f.srcSize <= SrcEnd(f, sb) && DestAt(f, db, e) + f.destSize <= DestEnd(f, db)
    ensures forall d: nat :: d < e ==> DestAt(f, db, d) + f.destSize <= DestAt(f, db, e)
    ensures DestAt(f, db, 0) <= DestAt(f, db, e) && SrcAt(f, sb, 0) <= SrcAt(f, sb, e)
  {
    MulStep(e, f.count, f.srcSize);
    MulStep(e, f.count, f.destSize);
    forall d: nat | d < e
      ensures DestAt(f, db, d) + f.destSize <= DestAt(f, db, e)
    {
      MulStep(d, e, f.destSize);
    }
  }

  lemma MulStep(a: nat, b: nat, k: nat)
    requires a < b
    ensures a * k + k <= b * k && 0 <= a * k
  {
    assert (a + 1) * k <= b * k;
  }

  /** One element more, in a buffer that was so far changed only below it. */
  lemma OneMore(first: seq<byte>, before: seq<byte>, after: seq<byte>, f: FieldSpec, sb: nat, db: nat, e: nat, lo: nat)
    requires FieldHolds(first, before, f, sb, db, e) && Holds(first, after, f, sb, db, e) && e < f.count && DestEnd(f, db) <= |before|
    requires OnlyIn(before, after, DestAt(f, db, e), DestAt(f, db, e) + f.destSize)
    ensures FieldHolds(first, after, f, sb, db, e + 1)
  {
    hide Converted;
    ElementPlaces(f, sb, db, e);
    forall d: nat | d < e
      ensures Holds(first, after, f, sb, db, d)
    {
      assert Holds(first, before, f, sb, db, d);
      assert after[DestAt(f, db, d)..DestAt(f, db, d) + f.destSize] == before[DestAt(f, db, d)..DestAt(f, db, d) + f.destSize];
    }
  }

  /** Convert one field, element by element: into another buffer, or in place. */
  method ConvertField(f: FieldSpec, src: array<byte>, sb: nat, dest: array<byte>, db: nat)
    requires SrcEnd(f, sb) <= src.Length && DestEnd(f, db) <= dest.Length
    requires src == dest ==> sb == db && InPlace(f)
    modifies dest
    ensures FieldHolds(old(src[..]), dest[..], f, sb, db, f.count)
    ensures OnlyIn(old(dest[..]), dest[..], DestAt(f, db, 0), DestEnd(f, db))
  {
    hide Converted, FieldHolds;
    ghost var first, start := src[..], dest[..];
    var e := 0;
    assert FieldHolds(first, dest[..], f, sb, db, 0) by { NoElements(first, dest[..], f, sb, db); }
    while e < f.count
      invariant 0 <= e <= f.count
      invariant FieldHolds(first, dest[..], f, sb, db, e)
      invariant OnlyIn(start, dest[..], DestAt(f, db, 0), DestAt(f, db, e))
      invariant src != dest ==> src[..] == first
    {
      ElementPlaces(f, sb, db, e);
      ghost var before := dest[..];
      var so, at := SrcAt(f, sb, e), DestAt(f, db, e);
      assert src[so..so + f.srcSize] == first[so..so + f.srcSize];
      ConvertElement(src, so, f.srcSize, dest, at, f.destSize, f.swap, f.signed);
      OneMore(first, before, dest[..], f, sb, db, e, DestAt(f, db, 0));
      NextAt(f, db, e);
      e := e + 1;
    }
  }

  lemma NoElements(before: seq<byte>, after: seq<byte>, f: FieldSpec, sb: nat, db: nat)
    ensures FieldHolds(before, after, f, sb, db, 0)
  {
  }

  lemma NextAt(f: FieldSpec, base: nat, e: nat)
    ensures DestAt(f, base, e + 1) == DestAt(f, base, e) + f.destSize
  {
    assert (e + 1) * f.destSize == e * f.destSize + f.destSize;
  }

  /** The target fields come in order and do not overlap; in place, neither do a field's
      source and a later field. */
  ghost predicate Ordered(fs: seq<FieldSpec>, db: nat, inPlace: bool) {
    && (inPlace ==> forall k :: 0 <= k < |fs| ==> InPlace(fs[k]))
    && forall k, l :: 0 <= k < l < |fs| ==> Before(fs[k], fs[l], db)
  }

  ghost predicate Before(f: FieldSpec, g: FieldSpec, db: nat) {
    DestEnd(f, db) <= DestAt(g, db, 0)
  }

  ghost predicate Room(fs: seq<FieldSpec>, sb: nat, db: nat, srcLen: nat, destLen: nat) {
    forall k :: 0 <= k < |fs| ==> SrcEnd(fs[k], sb) <= srcLen && DestEnd(fs[k], db) <= destLen
  }

  /** Byte i of the target belongs to none of the first n fields. */
  ghost predicate OutsideFields(fs: seq<FieldSpec>, db: nat, n: nat, i: int)
    requires n <= |fs|
  {
    forall k :: 0 <= k < n ==> i < DestAt(fs[k], db, 0) || DestEnd(fs[k], db) <= i
  }

  lemma FieldKept(first: seq<byte>, before: seq<byte>, after: seq<byte>, f: FieldSpec, g: FieldSpec, sb: nat, db: nat)
    requires FieldHolds(first, before, f, sb, db, f.count) && Before(f, g, db) && DestEnd(g, db) <= |before|
    requires OnlyIn(before, after, DestAt(g, db, 0), DestEnd(g, db)) && DestEnd(f, db) <= |before|
    ensures FieldHolds(first, after, f, sb, db, f.count)
  {
    hide Converted;
    forall e: nat | e < f.count
      ensures Holds(first, after, f, sb, db, e)
    {
      assert Holds(first, before, f, sb, db, e);
      ElementPlaces(f, sb, db, e);
      assert after[DestAt(f, db, e)..DestAt(f, db, e) + f.destSize] == before[DestAt(f, db, e)..DestAt(f, db, e) + f.destSize];
    }
  }

  /** Main result. Converting a record into another buffer, or over itself where every field
      keeps its offset, leaves in each field the converted source element: the same bytes
      either way. */
  method ConvertRecord(fs: seq<FieldSpec>, src: array<byte>, sb: nat, dest: array<byte>, db: nat)
    requires Room(fs, sb, db, src.Length, dest.Length) && Ordered(fs, db, src == dest) && (src == dest ==> sb == db)
    modifies dest
    ensures forall k :: 0 <= k < |fs| ==> FieldHolds(old(src[..]), dest[..], fs[k], sb, db, fs[k].count)
    ensures forall i :: 0 <= i < dest.Length && (fs == [] || i < DestAt(fs[0], db, 0) || DestEnd(fs[|fs| - 1], db) <= i) ==> dest[i] == old(dest[i])
    ensures forall i :: 0 <= i < dest.Length && OutsideFields(fs, db, |fs|, i) ==> dest[i] == old(dest[i])
  {
    hide FieldHolds, Converted, DestAt, DestEnd, SrcAt, SrcEnd;
    ghost var first, start := src[..], dest[..];
    var k := 0;
    while k < |fs|
      invariant 0 <= k <= |fs|
      invariant forall j :: 0 <= j < k ==> FieldHolds(first, dest[..], fs[j], sb, db, fs[j].count)
      invariant k == 0 ==> dest[..] == start
      invariant forall i :: 0 <= i < dest.Length && OutsideFields(fs, db, k, i) ==> dest[i] == start[i]
      invariant k > 0 ==> OnlyIn(start, dest[..], DestAt(fs[0], db, 0), DestEnd(fs[k - 1], db))
      invariant src != dest ==> src[..] == first
    {
      ghost var before := dest[..];
      ghost var f := fs[k];
      Places(f, db);
      if k > 0 {
        assert Before(fs[k - 1], f, db);
        assert Before(fs[0], f, db);
        Places(fs[0], db);
      }
      ghost var cur := src[..];
      ConvertField(fs[k], src, sb, dest, db);
      if src == dest && k > 0 {
        SameStart(f, db);
        Rebase(first, cur, dest[..], f, sb, db);
      }
      forall j | 0 <= j < k
        ensures FieldHolds(first, dest[..], fs[j], sb, db, fs[j].count)
      {
        assert Before(fs[j], f, db);
        FieldKept(first, before, dest[..], fs[j], f, sb, db);
      }
      k := k + 1;
    }
  }

  lemma SameStart(f: FieldSpec, base: nat)
    requires InPlace(f)
    ensures SrcAt(f, base, 0) == DestAt(f, base, 0)
  {
  }

  /** Only the field's own source bytes matter. */
  lemma Rebase(first: seq<byte>, cur: seq<byte>, after: seq<byte>, f: FieldSpec, sb: nat, db: nat)
    requires FieldHolds(cur, after, f, sb, db, f.count) && |first| == |cur|
    requires forall i :: SrcAt(f, sb, 0) <= i < |first| ==> cur[i] == first[i]
    ensures FieldHolds(first, after, f, sb, db, f.count)
  {
    hide Converted;
    forall e: nat | e < f.count
      ensures Holds(first, after, f, sb, db, e)
    {
      assert Holds(cur, after, f, sb, db, e);
      ElementPlaces(f, sb, db, e);
      assert cur[SrcAt(f, sb, e)..SrcAt(f, sb, e) + f.srcSize] == first[SrcAt(f, sb, e)..SrcAt(f, sb, e) + f.srcSize];
    }
  }

  lemma Places(f: FieldSpec, db: nat)
    ensures DestAt(f, db, 0) <= DestEnd(f, db)
  {
  }

  /** The conversion planned for a pair of fields. */
  function SpecOf(p: P.Pair, s: P.Setting, signed: bool): FieldSpec {
    FieldSpec(p.srcOffset, p.destOffset, p.srcSize, p.destSize, p.srcElements, s.byteReversal, signed)
  }

  /** Fields planned directly to memory can be converted in place. */
  lemma DirectInPlace(plan: P.Plan, ps: seq<P.Pair>, s: P.Setting, k: nat, signed: bool)
    requires P.Sound(plan, ps, s) && plan.kind.Rank() <= 1 && k < |plan.fields|
    ensures InPlace(SpecOf(plan.fields[k], s, signed))
  {
    var p := plan.fields[k];
    assert p in plan.fields;
    var j :| 0 <= j < |ps| && ps[j] == p;
    assert P.Fit(ps[j], plan.kind, s);
  }
}
