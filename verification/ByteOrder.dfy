/** Integers in either byte order, and byte strings in their place in a buffer. */
module ByteOrder {
  import opened Bytes

  const TWO16: nat := 0x1_0000
  const TWO31: nat := 0x8000_0000
  const TWO32: nat := 0x1_0000_0000

  // ----- integers in either byte order

  /** The next multiple of 4. */
  function Align4(n: nat): (m: nat)
    ensures m % 4 == 0 && n <= m < n + 4
  {
    n + (4 - n % 4) % 4
  }

  function Reverse(s: seq<byte>): (r: seq<byte>)
    ensures |r| == |s|
  {
    if s == [] then [] else Reverse(s[1..]) + [s[0]]
  }

  lemma {:induction false} ReverseLast(s: seq<byte>, x: byte)
    ensures Reverse(s + [x]) == [x] + Reverse(s)
  {
    if s == [] {
      assert [] + [x] == [x] && [x][1..] == [];
    } else {
      assert (s + [x])[1..] == s[1..] + [x];
      ReverseLast(s[1..], x);
    }
  }

  lemma {:induction false} ReverseTwice(s: seq<byte>)
    ensures Reverse(Reverse(s)) == s
  {
    if s != [] {
      ReverseLast(Reverse(s[1..]), s[0]);
      ReverseTwice(s[1..]);
    }
  }

  /** An n-byte integer as a machine of the given order stores it. */
  function Enc(big: bool, v: nat, n: nat): (s: seq<byte>)
    ensures |s| == n
  {
    if big then Reverse(ToLE(v, n)) else ToLE(v, n)
  }

  function Dec(big: bool, s: seq<byte>): nat {
    FromLE(if big then Reverse(s) else s)
  }

  lemma DecEnc(big: bool, v: nat, n: nat)
    requires v < Pow256(n)
    ensures Dec(big, Enc(big, v, n)) == v
  {
    FromToLE(v, n);
    ReverseTwice(ToLE(v, n));
  }

  lemma PowersAre()
    ensures Pow256(2) == TWO16 && Pow256(4) == TWO32
  {
    assert Pow256(1) == 256;
    assert Pow256(2) == 256 * Pow256(1);
    assert Pow256(3) == 256 * Pow256(2);
  }

  /** Swapping the bytes turns one order into the other. */
  lemma SwapIsOrder(big: bool, s: seq<byte>)
    ensures Dec(big, Reverse(s)) == Dec(!big, s)
  {
    ReverseTwice(s);
  }

  /** An integer read by a host that swaps when the record's order is not its own. */
  function ReadInt(b: seq<byte>, p: nat, n: nat, host: bool, swap: bool): nat {
    var s := Load(b, p, n);
    Dec(host, if swap then Reverse(s) else s)
  }

  // ----- pieces of a buffer

  ghost predicate Has(b: seq<byte>, p: nat, s: seq<byte>) {
    p + |s| <= |b| && b[p..p + |s|] == s
  }

  lemma HasBound(b: seq<byte>, p: nat, s: seq<byte>)
    requires Has(b, p, s)
    ensures p + |s| <= |b|
  {
  }

  lemma HasSplit(b: seq<byte>, p: nat, s: seq<byte>, t: seq<byte>)
    requires Has(b, p, s + t)
    ensures Has(b, p, s) && Has(b, p + |s|, t)
  {
    assert b[p..p + |s + t|][..|s|] == s;
    assert b[p..p + |s + t|][|s|..] == t;
  }

  lemma HasJoin(b: seq<byte>, p: nat, s: seq<byte>, t: seq<byte>)
    requires Has(b, p, s) && Has(b, p + |s|, t)
    ensures Has(b, p, s + t)
  {
    assert b[p..p + |s + t|] == b[p..p + |s|] + b[p + |s|..p + |s + t|];
  }

  /** Whatever the reader's order, it reads what the writer meant. */
  lemma ReadBack(b: seq<byte>, p: nat, n: nat, v: nat, big: bool, host: bool)
    requires Has(b, p, Enc(big, v, n)) && v < Pow256(n)
    ensures ReadInt(b, p, n, host, big != host) == v
  {
    var s := Enc(big, v, n);
    DecEnc(big, v, n);
    if big != host { SwapIsOrder(host, s); }
  }

  function Zeros(n: nat): (s: seq<byte>)
    ensures |s| == n
  {
    seq(n, _ => 0)
  }

  lemma HasLoad(b: seq<byte>, p: nat, s: seq<byte>)
    requires Has(b, p, s)
    ensures Load(b, p, |s|) == s
  {
  }

  lemma Whole(b: seq<byte>)
    ensures Has(b, 0, b)
  {
  }

  // ----- buffers

  /** b with the bytes s in place at p; everything else as before. */
  ghost predicate Written(before: seq<byte>, after: seq<byte>, p: nat, s: seq<byte>) {
    && |after| == |before| && Has(after, p, s)
    && forall i :: 0 <= i < |before| && (i < p || p + |s| <= i) ==> after[i] == before[i]
  }

  method Put(r: array<byte>, p: nat, s: seq<byte>)
    requires p + |s| <= r.Length
    modifies r
    ensures Written(old(r[..]), r[..], p, s)
  {
    forall i | 0 <= i < |s| {
      r[p + i] := s[i];
    }
    assert r[..][p..p + |s|] == s;
  }

  lemma StillHas(before: seq<byte>, after: seq<byte>, p: nat, s: seq<byte>, q: nat, t: seq<byte>)
    requires Written(before, after, p, s) && Has(before, q, t) && (q + |t| <= p || p + |s| <= q)
    ensures Has(after, q, t)
  {
    assert after[q..q + |t|] == before[q..q + |t|];
  }

  /** A sequence written front to back: done holds what is written, left what is not. */
  lemma Advance(all: seq<byte>, done: seq<byte>, next: seq<byte>, left: seq<byte>)
    requires done <= all && all[|done|..] == next + left
    ensures done + next <= all && all[|done + next|..] == left
  {
    assert all == done + (next + left);
  }

  lemma Keep(before: seq<byte>, mid: seq<byte>, after: seq<byte>, p: nat, s: seq<byte>, q: nat, t: seq<byte>, lo: nat)
    requires Written(before, mid, p, s) && Written(mid, after, q, t) && lo <= p && lo <= q && lo <= |before|
    ensures after[..lo] == before[..lo]
  {
  }

  lemma Nothing(b: seq<byte>, p: nat)
    requires p <= |b|
    ensures Has(b, p, [])
  {
  }

  lemma Prefix(before: seq<byte>, after: seq<byte>, p: nat, s: seq<byte>, lo: nat)
    requires Written(before, after, p, s) && lo <= p && lo <= |before|
    ensures after[..lo] == before[..lo]
  {
  }

  lemma Complete(x: seq<byte>, all: seq<byte>)
    requires x <= all && all[|x|..] == []
    ensures x == all
  {
  }

  lemma Put1(before: seq<byte>, after: seq<byte>, p: nat, s: seq<byte>)
    requires Written(before, after, p, s)
    ensures Has(after, p, s)
  {
  }

  lemma SameHas(b: seq<byte>, c: seq<byte>, n: nat, p: nat, s: seq<byte>)
    requires n <= |b| && n <= |c| && b[..n] == c[..n] && Has(b, p, s) && p + |s| <= n
    ensures Has(c, p, s)
  {
    assert c[p..p + |s|] == c[..n][p..p + |s|] == b[..n][p..p + |s|] == b[p..p + |s|];
  }

  /** What is in front of two writes is still there after them. */
  lemma CarryOver(b: seq<byte>, c: seq<byte>, d: seq<byte>, n: nat, p: nat, s: seq<byte>, q: nat, t: seq<byte>)
    requires n <= |b| && n <= |c| && b[..n] == c[..n] && Has(b, q, t) && q + |t| <= n
    requires Written(c, d, p, s) && (q + |t| <= p || p + |s| <= q)
    ensures Has(d, q, t)
  {
    hide Has, Written;
    SameHas(b, c, n, q, t);
    StillHas(c, d, p, s, q, t);
  }

  lemma SplitSeven(b: seq<byte>, p: nat, s1: seq<byte>, s2: seq<byte>, s3: seq<byte>, s4: seq<byte>, s5: seq<byte>, s6: seq<byte>, s7: seq<byte>)
    requires Has(b, p, s1 + s2 + s3 + s4 + s5 + s6 + s7)
    ensures Has(b, p, s1) && Has(b, p + |s1|, s2) && Has(b, p + |s1| + |s2|, s3) && Has(b, p + |s1| + |s2| + |s3|, s4)
    ensures Has(b, p + |s1| + |s2| + |s3| + |s4|, s5) && Has(b, p + |s1| + |s2| + |s3| + |s4| + |s5|, s6)
    ensures Has(b, p + |s1| + |s2| + |s3| + |s4| + |s5| + |s6|, s7)
  {
    hide Has;
    HasSplit(b, p, s1 + s2 + s3 + s4 + s5 + s6, s7);
    HasSplit(b, p, s1 + s2 + s3 + s4 + s5, s6);
    HasSplit(b, p, s1 + s2 + s3 + s4, s5);
    HasSplit(b, p, s1 + s2 + s3, s4);
    HasSplit(b, p, s1 + s2, s3);
    HasSplit(b, p, s1, s2);
  }

  lemma Whole2(b: seq<byte>, p: nat, s: seq<byte>)
    requires Has(b, p, s)
    ensures b[..p + |s|] == b[..p] + s
  {
  }
}
