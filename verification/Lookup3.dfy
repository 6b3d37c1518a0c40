/** Bob Jenkins' lookup3 hash: three ways of reading the key that give one result, and
    mixing steps that lose nothing. */
module Lookup3 {
  import opened Bytes
  import opened Words

  datatype State = State(a: word, b: word, c: word)

  function Rot(x: word, k: nat): word
    requires k <= 32
  {
    XorW(Shl(x, k), Shr(x, 32 - k))
  }

  lemma {:induction false} PowAdd(m: nat, n: nat)
    ensures Pow2(m) * Pow2(n) == Pow2(m + n)
  {
    if m > 0 { PowAdd(m - 1, n); }
  }

  /** The low 32 - k bits go up by k, the others come in below them. */
  lemma RotIs(x: word, k: nat)
    requires 0 < k < 32
    ensures Rot(x, k) == x % Pow2(32 - k) * Pow2(k) + x / Pow2(32 - k)
  {
    hide Bitwise, Pow2;
    var p, q := Pow2(32 - k), Pow2(k);
    var h, l := x / p, x % p;
    Pow2Values();
    PowAdd(32 - k, k);
    HighPart(x, p, q);
    assert x * q % TWO32 == l * q by { HighLost(x, p, q); }
    XorApart(l, h, k, 32);
  }

  lemma HighLost(x: nat, p: nat, q: nat)
    requires p > 0 && q > 0 && p * q == TWO32
    ensures x * q % TWO32 == x % p * q
  {
    var h, l := x / p, x % p;
    assert x == p * h + l;
    MulSplit(q, p, h, l);
    assert x * q == q * (p * h + l) && q * p == TWO32;
    LowTimes(l, p, q);
    DivMod(x * q, TWO32, h, q * l);
  }

  lemma LowTimes(l: nat, p: nat, q: nat)
    requires l < p && p * q == TWO32 && q > 0
    ensures l * q < TWO32
  {
    MulMono(q, l, p - 1);
  }

  lemma HighPart(x: word, p: nat, q: nat)
    requires p > 0 && p * q == TWO32
    ensures x / p < q
  {
    if x / p >= q { MulMono(p, q, x / p); }
  }

  /** Rotation to the left: bit i of the result is bit i - k, modulo 32, of the word. */
  lemma RotBits(x: word, k: nat, i: nat)
    requires k < 32 && i < 32
    ensures BitAt(Rot(x, k), i) == BitAt(x, (i + 32 - k) % 32)
  {
    hide Bitwise, Pow2, Rot, BitAt;
    if k == 0 {
      NoTurn(x);
    } else {
      RotIs(x, k);
      TurnedParts(x, k);
      TurnedBit(x, Rot(x, k), x / Pow2(32 - k), x % Pow2(32 - k), k, i);
    }
  }

  lemma TurnedParts(x: word, k: nat)
    requires 0 < k < 32
    ensures x == x / Pow2(32 - k) * Pow2(32 - k) + x % Pow2(32 - k) && x / Pow2(32 - k) < Pow2(k)
  {
    hide Pow2;
    Pow2Values();
    PowAdd(32 - k, k);
    HighPart(x, Pow2(32 - k), Pow2(k));
  }

  /** Bit i of two parts put together in one order, and in the other. */
  lemma TurnedBit(x: nat, r: nat, h: nat, l: nat, k: nat, i: nat)
    requires 0 < k < 32 && i < 32 && h < Pow2(k) && l < Pow2(32 - k)
    requires x == h * Pow2(32 - k) + l && r == l * Pow2(k) + h
    ensures BitAt(r, i) == BitAt(x, (i + 32 - k) % 32)
  {
    hide Pow2, BitAt;
    if i >= k {
      BitUp(l, h, k, i - k);
      BitLow(h, l, 32 - k, i - k);
    } else {
      BitLow(l, h, k, i);
      BitUp(h, l, 32 - k, i);
    }
  }

  lemma NoTurn(x: word)
    ensures Rot(x, 0) == x
  {
    hide Bitwise;
    Pow2Values();
    PowZero();
    XorZero(x, 32);
    assert Shl(x, 0) == x && Shr(x, 32) == 0;
  }

  // ----- mix and final are bijections

  /** x -= y; x ^= rot(y, k) */
  function Sub(x: word, y: word, k: nat): word
    requires k <= 32
  {
    XorW(Minus(x, y), Rot(y, k))
  }

  function Unsub(x: word, y: word, k: nat): word
    requires k <= 32
  {
    Plus(XorW(x, Rot(y, k)), y)
  }

  lemma SubBack(x: word, y: word, k: nat)
    requires k <= 32
    ensures Unsub(Sub(x, y, k), y, k) == x && Sub(Unsub(x, y, k), y, k) == x
  {
    hide Rot, XorW, Plus, Minus;
    XorBack(Minus(x, y), Rot(y, k));
    XorBack(x, Rot(y, k));
    PlusMinus(x, y);
    PlusMinus(XorW(x, Rot(y, k)), y);
  }

  /** a -= c; a ^= rot(c, k); c += b */
  function MixA(s: State, k: nat): State
    requires k <= 32
  {
    State(Sub(s.a, s.c, k), s.b, Plus(s.c, s.b))
  }

  /** b -= a; b ^= rot(a, k); a += c */
  function MixB(s: State, k: nat): State
    requires k <= 32
  {
    State(Plus(s.a, s.c), Sub(s.b, s.a, k), s.c)
  }

  /** c -= b; c ^= rot(b, k); b += a */
  function MixC(s: State, k: nat): State
    requires k <= 32
  {
    State(s.a, Plus(s.b, s.a), Sub(s.c, s.b, k))
  }

  function Mix(s: State): State {
    MixC(MixB(MixA(MixC(MixB(MixA(s, 4), 6), 8), 16), 19), 4)
  }

  function UnmixA(s: State, k: nat): State
    requires k <= 32
  {
    var c := Minus(s.c, s.b);
    State(Unsub(s.a, c, k), s.b, c)
  }

  function UnmixB(s: State, k: nat): State
    requires k <= 32
  {
    var a := Minus(s.a, s.c);
    State(a, Unsub(s.b, a, k), s.c)
  }

  function UnmixC(s: State, k: nat): State
    requires k <= 32
  {
    var b := Minus(s.b, s.a);
    State(s.a, b, Unsub(s.c, b, k))
  }

  function Unmix(s: State): State {
    UnmixA(UnmixB(UnmixC(UnmixA(UnmixB(UnmixC(s, 4), 19), 16), 8), 6), 4)
  }

  lemma StepsInvert(s: State, k: nat)
    requires k <= 32
    ensures UnmixA(MixA(s, k), k) == s && MixA(UnmixA(s, k), k) == s
    ensures UnmixB(MixB(s, k), k) == s && MixB(UnmixB(s, k), k) == s
    ensures UnmixC(MixC(s, k), k) == s && MixC(UnmixC(s, k), k) == s
  {
    hide Sub, Unsub, Plus, Minus;
    PlusMinus(s.c, s.b);
    PlusMinus(s.a, s.c);
    PlusMinus(s.b, s.a);
    SubBack(s.a, s.c, k);
    SubBack(s.b, s.a, k);
    SubBack(s.c, s.b, k);
    SubBack(s.a, Minus(s.c, s.b), k);
    SubBack(s.b, Minus(s.a, s.c), k);
    SubBack(s.c, Minus(s.b, s.a), k);
  }

  /** Mixing can be undone, from either side. */
  lemma MixBijective(s: State)
    ensures Unmix(Mix(s)) == s && Mix(Unmix(s)) == s
  {
    hide MixA, MixB, MixC, UnmixA, UnmixB, UnmixC;
    var s1 := MixA(s, 4);
    var s2 := MixB(s1, 6);
    var s3 := MixC(s2, 8);
    var s4 := MixA(s3, 16);
    var s5 := MixB(s4, 19);
    StepsInvert(s5, 4);
    StepsInvert(s4, 19);
    StepsInvert(s3, 16);
    StepsInvert(s2, 8);
    StepsInvert(s1, 6);
    StepsInvert(s, 4);
    var t1 := UnmixC(s, 4);
    var t2 := UnmixB(t1, 19);
    var t3 := UnmixA(t2, 16);
    var t4 := UnmixC(t3, 8);
    var t5 := UnmixB(t4, 6);
    StepsInvert(t5, 4);
    StepsInvert(t4, 6);
    StepsInvert(t3, 8);
    StepsInvert(t2, 16);
    StepsInvert(t1, 19);
  }

  /** x ^= y; x -= rot(y, k) */
  function Fold(x: word, y: word, k: nat): word
    requires k <= 32
  {
    Minus(XorW(x, y), Rot(y, k))
  }

  function Unfold(x: word, y: word, k: nat): word
    requires k <= 32
  {
    XorW(Plus(x, Rot(y, k)), y)
  }

  lemma FoldBack(x: word, y: word, k: nat)
    requires k <= 32
    ensures Unfold(Fold(x, y, k), y, k) == x && Fold(Unfold(x, y, k), y, k) == x
  {
    hide Rot, XorW, Plus, Minus;
    XorBack(x, y);
    XorBack(Plus(x, Rot(y, k)), y);
    PlusMinus(XorW(x, y), Rot(y, k));
    PlusMinus(x, Rot(y, k));
  }

  function Final(s: State): State {
    var c1 := Fold(s.c, s.b, 14);
    var a1 := Fold(s.a, c1, 11);
    var b1 := Fold(s.b, a1, 25);
    var c2 := Fold(c1, b1, 16);
    var a2 := Fold(a1, c2, 4);
    var b2 := Fold(b1, a2, 14);
    State(a2, b2, Fold(c2, b2, 24))
  }

  function Unfinal(s: State): State {
    var c2 := Unfold(s.c, s.b, 24);
    var b1 := Unfold(s.b, s.a, 14);
    var a1 := Unfold(s.a, c2, 4);
    var c1 := Unfold(c2, b1, 16);
    var b := Unfold(b1, a1, 25);
    var a := Unfold(a1, c1, 11);
    State(a, b, Unfold(c1, b, 14))
  }

  /** So can the final mixing. */
  lemma FinalBijective(s: State)
    ensures Unfinal(Final(s)) == s && Final(Unfinal(s)) == s
  {
    hide Fold, Unfold;
    var c1 := Fold(s.c, s.b, 14);
    var a1 := Fold(s.a, c1, 11);
    var b1 := Fold(s.b, a1, 25);
    var c2 := Fold(c1, b1, 16);
    var a2 := Fold(a1, c2, 4);
    var b2 := Fold(b1, a2, 14);
    FoldBack(s.c, s.b, 14);
    FoldBack(s.a, c1, 11);
    FoldBack(s.b, a1, 25);
    FoldBack(c1, b1, 16);
    FoldBack(a1, c2, 4);
    FoldBack(b1, a2, 14);
    FoldBack(c2, b2, 24);
    var d2 := Unfold(s.c, s.b, 24);
    var e1 := Unfold(s.b, s.a, 14);
    var f1 := Unfold(s.a, d2, 4);
    var d1 := Unfold(d2, e1, 16);
    var e := Unfold(e1, f1, 25);
    var f := Unfold(f1, d1, 11);
    FoldBack(s.c, s.b, 24);
    FoldBack(s.b, s.a, 14);
    FoldBack(s.a, d2, 4);
    FoldBack(d2, e1, 16);
    FoldBack(e1, f1, 25);
    FoldBack(f1, d1, 11);
    FoldBack(d1, e, 14);
  }

  // ----- the hash of a key

  /** Byte p of the key, nothing beyond its end. */
  function Byte(key: seq<byte>, p: nat): byte {
    if p < |key| then key[p] else 0
  }

  /** The 4 bytes from p as a little-endian word; bytes past the key count as zero. */
  function WordOf(key: seq<byte>, p: nat): word {
    Byte(key, p) + 0x100 * Byte(key, p + 1) + 0x1_0000 * Byte(key, p + 2) + 0x100_0000 * Byte(key, p + 3)
  }

  function Add(s: State, key: seq<byte>, p: nat): State {
    State(Plus(s.a, WordOf(key, p)), Plus(s.b, WordOf(key, p + 4)), Plus(s.c, WordOf(key, p + 8)))
  }

  /** The key from p on, in blocks of 12 bytes; an empty key is not mixed at all. */
  function Absorb(s: State, key: seq<byte>, p: nat): State
    decreases |key| - p
  {
    if p + 12 < |key| then Absorb(Mix(Add(s, key, p)), key, p + 12)
    else if p >= |key| then s
    else Final(Add(s, key, p))
  }

  function Begin(length: nat, pc: word, pb: word): State {
    var x := Plus(Plus(0xdead_beef, length % TWO32), pc);
    State(x, x, Plus(x, pb))
  }

  /** Both hashes of a key: c is the primary one. */
  function Hash2(key: seq<byte>, pc: word, pb: word): State {
    Absorb(Begin(|key|, pc, pb), key, 0)
  }

  // ----- three ways to read it

  /** C loads from memory; what lies past the end of memory is masked off again. */
  function Load32(m: seq<byte>, p: nat): word {
    WordOf(m, p)
  }

  function Load16(m: seq<byte>, p: nat): word {
    Byte(m, p) + 0x100 * Byte(m, p + 1)
  }

  /** The low n bytes of the word at p. */
  function Part(m: seq<byte>, p: nat, n: nat): word {
    (if n >= 1 then Byte(m, p) else 0) + (if n >= 2 then 0x100 * Byte(m, p + 1) else 0)
    + (if n >= 3 then 0x1_0000 * Byte(m, p + 2) else 0) + (if n >= 4 then 0x100_0000 * Byte(m, p + 3) else 0)
  }

  lemma PlusPlus(x: word, y: word, z: word)
    requires y + z < TWO32
    ensures Plus(Plus(x, y), z) == Plus(x, y + z)
  {
  }

  lemma Masked(m: seq<byte>, p: nat, n: nat)
    requires n <= 3
    ensures AndW(Load32(m, p), if n == 1 then 0xff else if n == 2 then 0xffff else if n == 3 then 0xff_ffff else 0) == Part(m, p, n)
  {
    hide Bitwise, Pow2;
    Pow2Values();
    PowZero();
    AndOnes(Load32(m, p), 8 * n, 32);
    LowBytes(Byte(m, p), Byte(m, p + 1), Byte(m, p + 2), Byte(m, p + 3));
  }

  lemma PowZero()
    ensures Pow2(0) == 1
  {
  }

  lemma LowBytes(b0: byte, b1: byte, b2: byte, b3: byte)
    ensures var w := b0 + 0x100 * b1 + 0x1_0000 * b2 + 0x100_0000 * b3;
      w % 1 == 0 && w % 0x100 == b0 && w % 0x1_0000 == b0 + 0x100 * b1 && w % 0x100_0000 == b0 + 0x100 * b1 + 0x1_0000 * b2
  {
  }

  lemma Shifted(b: byte, k: nat)
    requires k == 8 || k == 16 || k == 24
    ensures Shl(b, k) == (if k == 8 then 0x100 * b else if k == 16 then 0x1_0000 * b else 0x100_0000 * b)
  {
    Pow2Values();
  }

  /** Add n bytes of the word at p by one masked load. */
  method AddByWord(x: word, m: seq<byte>, p: nat, n: nat) returns (r: word)
    requires n <= 4
    ensures r == Plus(x, Part(m, p, n))
  {
    hide Plus, AndW;
    Masked(m, p, if n < 4 then n else 0);
    PlusZero(x);
    if n == 4 { r := Plus(x, Load32(m, p)); }
    else if n == 3 { r := Plus(x, AndW(Load32(m, p), 0xff_ffff)); }
    else if n == 2 { r := Plus(x, AndW(Load32(m, p), 0xffff)); }
    else if n == 1 { r := Plus(x, AndW(Load32(m, p), 0xff)); }
    else { r := x; }
  }

  lemma PlusZero(x: word)
    ensures Plus(x, 0) == x
  {
  }

  /** Add them by loads of half words, the last odd byte alone. */
  method AddByHalf(x: word, m: seq<byte>, p: nat, n: nat) returns (r: word)
    requires n <= 4
    ensures r == Plus(x, Part(m, p, n))
  {
    hide Plus, Shl;
    PlusZero(x);
    Shifted(Byte(m, p + 2), 16);
    if n == 4 {
      HalfShifted(m, p + 2);
      Small(Load16(m, p), Shl(Load16(m, p + 2), 16));
      r := Plus(x, Plus(Load16(m, p), Shl(Load16(m, p + 2), 16)));
    } else if n == 3 {
      r := Plus(x, Shl(Byte(m, p + 2), 16));
      PlusPlus(x, Shl(Byte(m, p + 2), 16), Load16(m, p));
      r := Plus(r, Load16(m, p));
    } else if n == 2 {
      r := Plus(x, Load16(m, p));
    } else if n == 1 {
      r := Plus(x, Byte(m, p));
    } else {
      r := x;
    }
  }

  lemma HalfShifted(m: seq<byte>, p: nat)
    ensures Shl(Load16(m, p), 16) == 0x1_0000 * Byte(m, p) + 0x100_0000 * Byte(m, p + 1)
  {
    Pow2Values();
  }

  lemma Small(x: word, y: word)
    requires x + y < TWO32
    ensures Plus(x, y) == x + y
  {
  }

  /** Add them byte by byte, the highest first. */
  method AddByByte(x: word, m: seq<byte>, p: nat, n: nat) returns (r: word)
    requires n <= 4
    ensures r == Plus(x, Part(m, p, n))
  {
    hide Plus, Shl;
    r := x;
    PlusZero(x);
    ghost var sum := 0;
    Shifted(Byte(m, p + 3), 24);
    Shifted(Byte(m, p + 2), 16);
    Shifted(Byte(m, p + 1), 8);
    if n >= 4 {
      PlusPlus(x, sum, Shl(Byte(m, p + 3), 24));
      r := Plus(r, Shl(Byte(m, p + 3), 24));
      sum := sum + 0x100_0000 * Byte(m, p + 3);
    }
    if n >= 3 {
      PlusPlus(x, sum, Shl(Byte(m, p + 2), 16));
      r := Plus(r, Shl(Byte(m, p + 2), 16));
      sum := sum + 0x1_0000 * Byte(m, p + 2);
    }
    if n >= 2 {
      PlusPlus(x, sum, Shl(Byte(m, p + 1), 8));
      r := Plus(r, Shl(Byte(m, p + 1), 8));
      sum := sum + 0x100 * Byte(m, p + 1);
    }
    if n >= 1 {
      PlusPlus(x, sum, Byte(m, p));
      r := Plus(r, Byte(m, p));
    }
  }

  /** The widest load the address allows. */
  method AddPart(x: word, m: seq<byte>, addr: nat, p: nat, n: nat) returns (r: word)
    requires n <= 4
    ensures r == Plus(x, Part(m, p, n))
  {
    if addr % 4 == 0 {
      r := AddByWord(x, m, p, n);
    } else if addr % 2 == 0 {
      r := AddByHalf(x, m, p, n);
    } else {
      r := AddByByte(x, m, p, n);
    }
  }

  /** How many of 4 bytes are left. */
  function Left(n: int): (k: nat)
    ensures k <= 4
  {
    if n <= 0 then 0 else if n >= 4 then 4 else n
  }

  /** In memory, the bytes left of the key are those of the key's word. */
  lemma KeyPart(m: seq<byte>, addr: nat, key: seq<byte>, p: nat)
    requires addr + |key| <= |m| && m[addr..addr + |key|] == key
    ensures Part(m, addr + p, Left(|key| - p)) == WordOf(key, p)
  {
    forall i | p <= i < |key|
      ensures Byte(m, addr + i) == Byte(key, i)
    {
      assert m[addr..addr + |key|][i] == key[i];
    }
  }

  /** hashlittle2: the pair of hashes depends on the bytes of the key only, not on where it
      lies in memory or what comes after it. */
  method HashLittle2(m: seq<byte>, addr: nat, length: nat, pc: word, pb: word) returns (c: word, b: word)
    requires addr + length <= |m|
    ensures var s := Hash2(m[addr..addr + length], pc, pb); c == s.c && b == s.b
  {
    hide Mix, Final, Plus, Part, WordOf, Begin;
    ghost var key := m[addr..addr + length];
    var s := Begin(length, pc, pb);
    var left: nat, p: nat := length, addr;
    while left > 12
      invariant left <= length && p == addr + (length - left)
      invariant Absorb(s, key, length - left) == Hash2(key, pc, pb)
      decreases left
    {
      var x, y, z := AddBlock(s, m, addr, p, left, key);
      s := Mix(State(x, y, z));
      left, p := left - 12, p + 12;
    }
    if left == 0 {
      return s.c, s.b;
    }
    var x, y, z := AddBlock(s, m, addr, p, left, key);
    s := Final(State(x, y, z));
    c, b := s.c, s.b;
  }

  /** Add the next block, or what is left of the key. */
  method AddBlock(s: State, m: seq<byte>, addr: nat, p: nat, left: nat, ghost key: seq<byte>) returns (x: word, y: word, z: word)
    requires addr + |key| <= |m| && m[addr..addr + |key|] == key && p == addr + (|key| - left) && left <= |key|
    ensures State(x, y, z) == Add(s, key, |key| - left)
  {
    hide Plus, Part, WordOf;
    KeyPart(m, addr, key, |key| - left);
    KeyPart(m, addr, key, |key| - left + 4);
    KeyPart(m, addr, key, |key| - left + 8);
    x := AddPart(s.a, m, addr, p, Left(left));
    y := AddPart(s.b, m, addr, p + 4, Left(left - 4));
    z := AddPart(s.c, m, addr, p + 8, Left(left - 8));
  }

  // ----- keys of whole words

  function BytesOf(k: seq<word>): (s: seq<byte>)
    ensures |s| == 4 * |k|
  {
    if k == [] then [] else ToLE(k[0], 4) + BytesOf(k[1..])
  }

  lemma WordBytes(w: word)
    ensures WordOf(ToLE(w, 4), 0) == w
  {
    var s := ToLE(w, 4);
    assert s[0] == w % 256 && s[1..] == ToLE(w / 256, 3);
    assert s[1] == w / 256 % 256 && s[1..][1..] == ToLE(w / 256 / 256, 2);
    assert s[2] == w / 256 / 256 % 256 && s[1..][1..][1..] == ToLE(w / 256 / 256 / 256, 1);
    assert s[3] == w / 256 / 256 / 256 % 256;
  }

  lemma {:induction false} WordAt(k: seq<word>, i: nat)
    ensures WordOf(BytesOf(k), 4 * i) == if i < |k| then k[i] else 0
  {
    if k != [] {
      var h, t := ToLE(k[0], 4), BytesOf(k[1..]);
      assert BytesOf(k) == h + t;
      if i == 0 {
        WordBytes(k[0]);
      } else {
        WordAt(k[1..], i - 1);
        assert forall j: nat :: j >= 4 ==> Byte(h + t, j) == Byte(t, j - 4);
      }
    }
  }

  lemma LengthShifted(n: nat)
    ensures Shl(n % TWO32, 2) == 4 * n % TWO32
  {
    assert Pow2(2) == 4;
    var q, r := n / TWO32, n % TWO32;
    assert 4 * n == 4 * q * TWO32 + 4 * r;
    PeriodMod(4 * r, 4 * q);
  }

  lemma PeriodMod(x: nat, k: nat)
    ensures (x + k * TWO32) % TWO32 == x % TWO32
  {
    DivMod(x + k * TWO32, TWO32, x / TWO32 + k, x % TWO32);
  }

  /** hashword: over words, the hash of their bytes. */
  method HashWord(k: seq<word>, initval: word) returns (c: word)
    ensures c == Hash2(BytesOf(k), initval, 0).c
  {
    hide Mix, Final, WordOf, BytesOf, Plus, Shl;
    ghost var key := BytesOf(k);
    LengthShifted(|k|);
    var x := Plus(Plus(0xdead_beef, Shl(|k| % TWO32, 2)), initval);
    PlusZero(x);
    var s := State(x, x, x);
    var left: nat, i: nat := |k|, 0;
    while left > 3
      invariant left <= |k| && i == |k| - left
      invariant Absorb(s, key, 4 * i) == Hash2(key, initval, 0)
      decreases left
    {
      WordAt(k, i);
      WordAt(k, i + 1);
      WordAt(k, i + 2);
      s := Mix(State(Plus(s.a, k[i]), Plus(s.b, k[i + 1]), Plus(s.c, k[i + 2])));
      left, i := left - 3, i + 3;
    }
    WordAt(k, i);
    WordAt(k, i + 1);
    WordAt(k, i + 2);
    PlusZero(s.a);
    PlusZero(s.b);
    PlusZero(s.c);
    if left > 0 {
      if left == 3 { s := s.(c := Plus(s.c, k[i + 2])); }
      if left >= 2 { s := s.(b := Plus(s.b, k[i + 1])); }
      s := s.(a := Plus(s.a, k[i]));
      s := Final(s);
    }
    c := s.c;
  }
}
