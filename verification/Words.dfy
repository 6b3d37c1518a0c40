/** 32-bit words: arithmetic that wraps around, and operations on bits. */
module Words {
  const TWO32: int := 0x1_0000_0000

  type word = w: int | 0 <= w < TWO32

  datatype BitOp = And | Or | Xor

  function Bit(op: BitOp, a: nat, b: nat): (r: nat)
    requires a < 2 && b < 2
    ensures r < 2
  {
    match op
    case And => if a == 1 && b == 1 then 1 else 0
    case Or => if a == 1 || b == 1 then 1 else 0
    case Xor => if a != b then 1 else 0
  }

  function Pow2(n: nat): (p: nat)
    ensures p > 0
  {
    if n == 0 then 1 else 2 * Pow2(n - 1)
  }

  /** The operation on the low n bits of two numbers. */
  function Bitwise(op: BitOp, a: nat, b: nat, n: nat): (r: nat)
    ensures r < Pow2(n)
    decreases n
  {
    if n == 0 then 0 else 2 * Bitwise(op, a / 2, b / 2, n - 1) + Bit(op, a % 2, b % 2)
  }

  lemma Pow2Values()
    ensures Pow2(8) == 0x100 && Pow2(16) == 0x1_0000 && Pow2(24) == 0x100_0000 && Pow2(32) == TWO32
  {
    assert Pow2(4) == 16;
    assert Pow2(8) == 0x100;
    assert Pow2(12) == 0x1000;
    assert Pow2(16) == 0x1_0000;
    assert Pow2(20) == 0x10_0000;
    assert Pow2(24) == 0x100_0000;
    assert Pow2(28) == 0x1000_0000;
  }

  // ----- bits

  lemma {:induction false} XorXor(a: nat, b: nat, n: nat)
    requires a < Pow2(n)
    ensures Bitwise(Xor, Bitwise(Xor, a, b, n), b, n) == a
    decreases n
  {
    if n > 0 {
      XorXor(a / 2, b / 2, n - 1);
      Halves(Bitwise(Xor, a / 2, b / 2, n - 1), Bit(Xor, a % 2, b % 2));
    }
  }

  lemma Halves(q: nat, r: nat)
    requires r < 2
    ensures (2 * q + r) / 2 == q && (2 * q + r) % 2 == r
  {
  }

  /** Exclusive or with all ones complements. */
  lemma {:induction false} XorOnes(x: nat, n: nat)
    requires x < Pow2(n)
    ensures Bitwise(Xor, Pow2(n) - 1, x, n) == Pow2(n) - 1 - x
    decreases n
  {
    if n > 0 {
      Halves(Pow2(n - 1) - 1, 1);
      XorOnes(x / 2, n - 1);
    }
  }

  lemma AndUnfold(x: nat, m: nat, n: nat)
    requires n > 0 && m % 2 == 1
    ensures Bitwise(And, x, m, n) == 2 * Bitwise(And, x / 2, m / 2, n - 1) + x % 2
  {
  }

  /** Masking keeps the low k bits. */
  lemma AndOnes(x: nat, k: nat, n: nat)
    requires x < Pow2(n) && k <= n
    ensures Bitwise(And, x, Pow2(k) - 1, n) == x % Pow2(k)
  {
    hide Bitwise, Pow2;
    AndLow(x, k, n);
  }

  function Rest(x: nat, p: nat): nat
    requires p > 0
  {
    x % p
  }

  lemma {:induction false} AndLow(x: nat, k: nat, n: nat)
    requires x < Pow2(n) && k <= n
    ensures Bitwise(And, x, Pow2(k) - 1, n) == Rest(x, Pow2(k))
    decreases n
  {
    if k == 0 {
      AndZero(x, n);
      ModOne(x);
    } else {
      hide Bitwise, Rest;
      AndLow(x / 2, k - 1, n - 1);
      AndStep(x, Pow2(k - 1), n);
    }
  }

  lemma AndStep(x: nat, p: nat, n: nat)
    requires p > 0 && n > 0 && Bitwise(And, x / 2, p - 1, n - 1) == Rest(x / 2, p)
    ensures Bitwise(And, x, 2 * p - 1, n) == Rest(x, 2 * p)
  {
    hide Bitwise;
    Halves(p - 1, 1);
    AndUnfold(x, 2 * (p - 1) + 1, n);
    ModHalf(x, p);
  }

  lemma {:induction false} AndZero(x: nat, n: nat)
    ensures Bitwise(And, x, 0, n) == 0
    decreases n
  {
    if n > 0 { AndZero(x / 2, n - 1); }
  }

  lemma ModOne(x: nat)
    ensures x % 1 == 0
  {
  }

  lemma ModHalf(x: nat, p: nat)
    requires p > 0
    ensures x % (2 * p) == 2 * (x / 2 % p) + x % 2
  {
    var h := x / 2;
    assert x == 2 * h + x % 2;
    assert h == p * (h / p) + h % p;
    DivMod(x, 2 * p, h / p, 2 * (h % p) + x % 2);
  }

  lemma DivMod(x: nat, k: nat, q: nat, r: nat)
    requires x == k * q + r && r < k
    ensures x / k == q && x % k == r
  {
    var d := x / k;
    assert x == k * d + x % k;
    if d > q { MulMono(k, q + 1, d); }
    if d < q { MulMono(k, d + 1, q); }
  }

  lemma MulMono(k: nat, a: nat, b: nat)
    requires a <= b
    ensures k * a <= k * b
  {
  }

  /** Numbers with no bit in common: one a multiple of 2^k, the other below it. */
  lemma {:induction false} XorApart(q: nat, r: nat, k: nat, n: nat)
    requires k <= n && r < Pow2(k) && q * Pow2(k) < Pow2(n)
    ensures Bitwise(Xor, q * Pow2(k), r, n) == q * Pow2(k) + r
    decreases k, n
  {
    if k == 0 {
      XorZero(q, n);
    } else {
      var p := Pow2(k - 1);
      TimesTwo(q, p);
      Halves(q * p, 0);
      XorApart(q, r / 2, k - 1, n - 1);
    }
  }

  lemma TimesTwo(q: nat, p: nat)
    ensures q * (2 * p) == 2 * (q * p)
  {
  }

  lemma {:induction false} XorZero(x: nat, n: nat)
    requires x < Pow2(n)
    ensures Bitwise(Xor, x, 0, n) == x
    decreases n
  {
    if n > 0 { XorZero(x / 2, n - 1); }
  }

  /** Bit i of a number. */
  function BitAt(x: nat, i: nat): nat {
    x / Pow2(i) % 2
  }

  lemma DivDiv(x: nat, p: nat, q: nat)
    requires p > 0 && q > 0
    ensures p * q > 0 && x / p / q == x / (p * q)
  {
    Assemble(x, p, q, x / p, x % p, x / p / q, x / p % q);
    DivMod(x, p * q, x / p / q, p * (x / p % q) + x % p);
  }

  lemma Assemble(x: nat, p: nat, q: nat, a: nat, r: nat, b: nat, s: nat)
    requires x == p * a + r && a == q * b + s && r < p && s < q
    ensures x == (p * q) * b + (p * s + r) && p * s + r < p * q
  {
    MulSplit(p, q, b, s);
    MulMono(p, s + 1, q);
    MulSplit(p, s, 1, 1);
  }

  lemma MulSplit(p: nat, q: nat, b: nat, r: nat)
    ensures p * (q * b + r) == (p * q) * b + p * r
  {
  }

  lemma BitHalf(x: nat, i: nat)
    ensures BitAt(x, 0) == x % 2 && (i > 0 ==> BitAt(x, i) == BitAt(x / 2, i - 1))
  {
    assert Pow2(0) == 1;
    if i > 0 { DivDiv(x, 2, Pow2(i - 1)); }
  }

  /** A bit of the result is the operation on the two bits. */
  lemma {:induction false} BitwiseAt(op: BitOp, a: nat, b: nat, n: nat, i: nat)
    requires i < n
    ensures BitAt(Bitwise(op, a, b, n), i) == Bit(op, BitAt(a, i), BitAt(b, i))
    decreases n
  {
    hide BitAt;
    var h := Bitwise(op, a / 2, b / 2, n - 1);
    Halves(h, Bit(op, a % 2, b % 2));
    BitHalf(a, i);
    BitHalf(b, i);
    BitHalf(Bitwise(op, a, b, n), i);
    if i > 0 { BitwiseAt(op, a / 2, b / 2, n - 1, i - 1); }
  }

  lemma HalfOf(l: nat, h: nat, p: nat)
    ensures (l * (2 * p) + h) / 2 == l * p + h / 2 && (l * (2 * p) + h) % 2 == h % 2
  {
    TimesTwo(l, p);
    Halves(l * p + h / 2, h % 2);
  }

  /** Above bit k stand the bits of l, below it those of h. */
  lemma {:induction false} BitUp(l: nat, h: nat, k: nat, j: nat)
    requires h < Pow2(k)
    ensures BitAt(l * Pow2(k) + h, k + j) == BitAt(l, j)
    decreases k
  {
    hide BitAt;
    var x := l * Pow2(k) + h;
    if k == 0 {
      assert x == l;
    } else {
      HalfOf(l, h, Pow2(k - 1));
      BitHalf(x, k + j);
      BitUp(l, h / 2, k - 1, j);
    }
  }

  lemma {:induction false} BitLow(l: nat, h: nat, k: nat, i: nat)
    requires i < k
    ensures BitAt(l * Pow2(k) + h, i) == BitAt(h, i)
    decreases k
  {
    hide BitAt;
    var x := l * Pow2(k) + h;
    HalfOf(l, h, Pow2(k - 1));
    BitHalf(x, i);
    BitHalf(h, i);
    if i > 0 { BitLow(l, h / 2, k - 1, i - 1); }
  }

  // ----- words

  function Plus(x: word, y: word): word {
    (x + y) % TWO32
  }

  function Minus(x: word, y: word): word {
    (x - y) % TWO32
  }

  function XorW(x: word, y: word): word {
    Pow2Values();
    Bitwise(Xor, x, y, 32)
  }

  function AndW(x: word, y: word): word {
    Pow2Values();
    Bitwise(And, x, y, 32)
  }

  function Shl(x: word, k: nat): word {
    x * Pow2(k) % TWO32
  }

  function Shr(x: word, k: nat): word
    requires k <= 32
  {
    ShrSmall(x, Pow2(k));
    x / Pow2(k)
  }

  lemma ShrSmall(x: word, p: nat)
    requires p > 0
    ensures 0 <= x / p < TWO32
  {
    assert x / p <= x;
  }

  lemma PlusMinus(x: word, y: word)
    ensures Minus(Plus(x, y), y) == x && Plus(Minus(x, y), y) == x
  {
    AddOver(x, y);
    SubOver(x, y);
  }

  lemma AddOver(x: word, y: word)
    ensures Plus(x, y) == if x + y < TWO32 then x + y else x + y - TWO32
  {
  }

  lemma SubOver(x: word, y: word)
    ensures Minus(x, y) == if y <= x then x - y else x - y + TWO32
  {
  }

  lemma XorBack(x: word, y: word)
    ensures XorW(XorW(x, y), y) == x
  {
    Pow2Values();
    XorXor(x, y, 32);
  }
}
