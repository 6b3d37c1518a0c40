/** Hashes of some keys, as numbers. */
module KnownHashes {
  import opened Bytes
  import opened Words
  import opened Lookup3

  // ----- exclusive or and rotation of given words, by comparing and subtracting

  function Rest(x: nat, p: nat): nat {
    if x >= p then x - p else x
  }

  function Top1(x: nat, y: nat, p: nat): nat {
    if (x >= p) != (y >= p) then p else 0
  }

  function Rest4(x: nat, p: nat): nat {
    Rest(Rest(Rest(Rest(x, 8 * p), 4 * p), 2 * p), p)
  }

  /** The highest 4 bits of the result, the lowest of them worth p. */
  function Top4(x: nat, y: nat, p: nat): nat {
    var x1, y1 := Rest(x, 8 * p), Rest(y, 8 * p);
    var x2, y2 := Rest(x1, 4 * p), Rest(y1, 4 * p);
    var x3, y3 := Rest(x2, 2 * p), Rest(y2, 2 * p);
    Top1(x, y, 8 * p) + Top1(x1, y1, 4 * p) + Top1(x2, y2, 2 * p) + Top1(x3, y3, p)
  }

  function Rest8(x: nat, p: nat): nat {
    Rest4(Rest4(x, 16 * p), p)
  }

  function Top8(x: nat, y: nat, p: nat): nat {
    Top4(x, y, 16 * p) + Top4(Rest4(x, 16 * p), Rest4(y, 16 * p), p)
  }

  function Whole(x: nat, y: nat): nat {
    var x1, y1 := Rest8(x, 0x100_0000), Rest8(y, 0x100_0000);
    var x2, y2 := Rest8(x1, 0x1_0000), Rest8(y1, 0x1_0000);
    var x3, y3 := Rest8(x2, 0x100), Rest8(y2, 0x100);
    Top8(x, y, 0x100_0000) + Top8(x1, y1, 0x1_0000) + Top8(x2, y2, 0x100) + Top8(x3, y3, 1)
  }

  lemma {:induction false} TopBit(x: nat, y: nat, n: nat)
    requires n > 0 && x < Pow2(n) && y < Pow2(n)
    ensures var p := Pow2(n - 1);
      Rest(x, p) < p && Rest(y, p) < p && Bitwise(Xor, x, y, n) == Top1(x, y, p) + Bitwise(Xor, Rest(x, p), Rest(y, p), n - 1)
  {
    if n > 1 {
      TopBit(x / 2, y / 2, n - 1);
      var q := Pow2(n - 2);
      RestHalf(x, q);
      RestHalf(y, q);
    }
  }

  lemma RestHalf(x: nat, q: nat)
    ensures Rest(x, 2 * q) / 2 == Rest(x / 2, q) && Rest(x, 2 * q) % 2 == x % 2 && (x >= 2 * q <==> x / 2 >= q)
  {
  }

  lemma Top4Bits(x: nat, y: nat, n: nat)
    requires n >= 4 && x < Pow2(n) && y < Pow2(n)
    ensures var p := Pow2(n - 4);
      Rest4(x, p) < p && Rest4(y, p) < p && Bitwise(Xor, x, y, n) == Top4(x, y, p) + Bitwise(Xor, Rest4(x, p), Rest4(y, p), n - 4)
  {
    hide Bitwise;
    var p := Pow2(n - 4);
    assert Pow2(n - 3) == 2 * p && Pow2(n - 2) == 4 * p && Pow2(n - 1) == 8 * p;
    TopBit(x, y, n);
    TopBit(Rest(x, 8 * p), Rest(y, 8 * p), n - 1);
    TopBit(Rest(Rest(x, 8 * p), 4 * p), Rest(Rest(y, 8 * p), 4 * p), n - 2);
    TopBit(Rest(Rest(Rest(x, 8 * p), 4 * p), 2 * p), Rest(Rest(Rest(y, 8 * p), 4 * p), 2 * p), n - 3);
  }

  lemma Top8Bits(x: nat, y: nat, n: nat)
    requires n >= 8 && x < Pow2(n) && y < Pow2(n)
    ensures var p := Pow2(n - 8);
      Rest8(x, p) < p && Rest8(y, p) < p && Bitwise(Xor, x, y, n) == Top8(x, y, p) + Bitwise(Xor, Rest8(x, p), Rest8(y, p), n - 8)
  {
    hide Bitwise, Rest4, Top4;
    var p := Pow2(n - 8);
    assert Pow2(n - 6) == 4 * p;
    assert Pow2(n - 4) == 16 * p;
    Top4Bits(x, y, n);
    Top4Bits(Rest4(x, 16 * p), Rest4(y, 16 * p), n - 4);
  }

  lemma XorWhole(x: word, y: word)
    ensures XorW(x, y) == Whole(x, y)
  {
    hide Bitwise, Rest8, Top8, Pow2;
    Pow2Values();
    PowZero();
    Top8Bits(x, y, 32);
    var x1, y1 := Rest8(x, 0x100_0000), Rest8(y, 0x100_0000);
    Top8Bits(x1, y1, 24);
    var x2, y2 := Rest8(x1, 0x1_0000), Rest8(y1, 0x1_0000);
    Top8Bits(x2, y2, 16);
    var x3, y3 := Rest8(x2, 0x100), Rest8(y2, 0x100);
    Top8Bits(x3, y3, 8);
    NoBits(Rest8(x3, 1), Rest8(y3, 1));
  }

  lemma NoBits(x: nat, y: nat)
    ensures Bitwise(Xor, x, y, 0) == 0
  {
  }

  /** 2^k for the distances in use, and 2^(32 - k). */
  function Up(k: nat): nat {
    match k
    case 4 => 0x10
    case 6 => 0x40
    case 8 => 0x100
    case 11 => 0x800
    case 14 => 0x4000
    case 16 => 0x1_0000
    case 19 => 0x8_0000
    case 24 => 0x100_0000
    case 25 => 0x200_0000
    case _ => 0
  }

  function Down(k: nat): nat {
    match k
    case 4 => 0x1000_0000
    case 6 => 0x400_0000
    case 8 => 0x100_0000
    case 11 => 0x20_0000
    case 14 => 0x4_0000
    case 16 => 0x1_0000
    case 19 => 0x2000
    case 24 => 0x100
    case 25 => 0x80
    case _ => 0
  }

  lemma Powers(k: nat)
    requires Up(k) != 0
    ensures Pow2(k) == Up(k) && Pow2(32 - k) == Down(k) && 0 < k < 32
  {
    Pow2Values();
    assert Pow2(4) == 0x10 && Pow2(6) == 0x40;
    assert Pow2(11) == 0x800 && Pow2(13) == 0x2000;
    assert Pow2(14) == 0x4000 && Pow2(18) == 0x4_0000 && Pow2(19) == 0x8_0000;
    assert Pow2(21) == 0x20_0000 && Pow2(25) == 0x200_0000;
    assert Pow2(26) == 0x400_0000 && Pow2(28) == 0x1000_0000;
    assert Pow2(7) == 0x80;
  }

  /** The word is h, its highest k bits, and l. */
  lemma Turned(x: word, k: nat, h: nat, l: nat)
    requires Up(k) != 0 && x == h * Down(k) + l && l < Down(k)
    ensures k <= 32 && Rot(x, k) == l * Up(k) + h
  {
    hide Pow2, Rot;
    Powers(k);
    RotIs(x, k);
    DivMod(x, Pow2(32 - k), h, l);
  }

  // ----- the steps
  lemma Step1()
    ensures Fold(0xdeadbef0, 0xdeadbef0, 14) == 0x9043c855
  {
    hide Rot, XorW, Pow2;
    Turned(0xdeadbef0, 14, 0x37ab, 0x1bef0);
    XorWhole(0xdeadbef0, 0xdeadbef0);
  }

  lemma Step2()
    ensures Fold(0xdeadbf51, 0x9043c855, 11) == 0x30abca82
  {
    hide Rot, XorW, Pow2;
    Turned(0x9043c855, 11, 0x482, 0x3c855);
    XorWhole(0xdeadbf51, 0x9043c855);
  }

  lemma Step3()
    ensures Fold(0xdeadbef0, 0x30abca82, 25) == 0xe9a51cdd
  {
    hide Rot, XorW, Pow2;
    Turned(0x30abca82, 25, 0x615795, 0x2);
    XorWhole(0xdeadbef0, 0x30abca82);
  }

  lemma Step4()
    ensures Fold(0x9043c855, 0xe9a51cdd, 16) == 0x5d08eae3
  {
    hide Rot, XorW, Pow2;
    Turned(0xe9a51cdd, 16, 0xe9a5, 0x1cdd);
    XorWhole(0x9043c855, 0xe9a51cdd);
  }

  lemma Step5()
    ensures Fold(0x30abca82, 0x5d08eae3, 4) == 0x9d14722c
  {
    hide Rot, XorW, Pow2;
    Turned(0x5d08eae3, 4, 0x5, 0xd08eae3);
    XorWhole(0x30abca82, 0x5d08eae3);
  }

  lemma Step6()
    ensures Fold(0xe9a51cdd, 0x9d14722c, 14) == 0x582647ac
  {
    hide Rot, XorW, Pow2;
    Turned(0x9d14722c, 14, 0x2745, 0x722c);
    XorWhole(0xe9a51cdd, 0x9d14722c);
  }

  lemma Step7()
    ensures Fold(0x5d08eae3, 0x582647ac, 24) == 0x58d68708
  {
    hide Rot, XorW, Pow2;
    Turned(0x582647ac, 24, 0x582647, 0xac);
    XorWhole(0x5d08eae3, 0x582647ac);
  }

  lemma Step8()
    ensures Sub(0x51232e53, 0x3fce247f, 4) == 0xedb74e27
  {
    hide Rot, XorW, Pow2;
    Turned(0x3fce247f, 4, 0x3, 0xfce247f);
    XorWhole(0x115509d4, 0xfce247f3);
  }

  lemma Step9()
    ensures Sub(0x4e11322d, 0xedb74e27, 6) == 0x0d8a6dfd
  {
    hide Rot, XorW, Pow2;
    Turned(0xedb74e27, 6, 0x3b, 0x1b74e27);
    XorWhole(0x6059e406, 0x6dd389fb);
  }

  lemma Step10()
    ensures Sub(0x8ddf56ac, 0x0d8a6dfd, 8) == 0x0a3915a2
  {
    hide Rot, XorW, Pow2;
    Turned(0x0d8a6dfd, 8, 0xd, 0x8a6dfd);
    XorWhole(0x8054e8af, 0x8a6dfd0d);
  }

  lemma Step11()
    ensures Sub(0x7b96a4d3, 0x0a3915a2, 16) == 0x64ff8508
  {
    hide Rot, XorW, Pow2;
    Turned(0x0a3915a2, 16, 0xa39, 0x15a2);
    XorWhole(0x715d8f31, 0x15a20a39);
  }

  lemma Step12()
    ensures Sub(0x892112d0, 0x64ff8508, 19) == 0x0c62aa34
  {
    hide Rot, XorW, Pow2;
    Turned(0x64ff8508, 19, 0x327fc, 0x508);
    XorWhole(0x24218dc8, 0x284327fc);
  }

  lemma Step13()
    ensures Sub(0x935a2872, 0x0c62aa34, 4) == 0x40dddd7e
  {
    hide Rot, XorW, Pow2;
    Turned(0x0c62aa34, 4, 0x0, 0xc62aa34);
    XorWhole(0x86f77e3e, 0xc62aa340);
  }

  lemma Step14()
    ensures Sub(0x6b7a11e8, 0xa243569e, 4) == 0xed03d2a0
  {
    hide Rot, XorW, Pow2;
    Turned(0xa243569e, 4, 0xa, 0x243569e);
    XorWhole(0xc936bb4a, 0x243569ea);
  }

  lemma Step15()
    ensures Sub(0x7321ce13, 0xed03d2a0, 6) == 0xc6e95348
  {
    hide Rot, XorW, Pow2;
    Turned(0xed03d2a0, 6, 0x3b, 0x103d2a0);
    XorWhole(0x861dfb73, 0x40f4a83b);
  }

  lemma Step16()
    ensures Sub(0x156524b1, 0xc6e95348, 8) == 0xa72899af
  {
    hide Rot, XorW, Pow2;
    Turned(0xc6e95348, 8, 0xc6, 0xe95348);
    XorWhole(0x4e7bd169, 0xe95348c6);
  }

  lemma Step17()
    ensures Sub(0x0268f751, 0xa72899af, 16) == 0xc2effa8a
  {
    hide Rot, XorW, Pow2;
    Turned(0xa72899af, 16, 0xa728, 0x99af);
    XorWhole(0x5b405da2, 0x99afa728);
  }

  lemma Step18()
    ensures Sub(0xc9524a99, 0xc2effa8a, 19) == 0xd2344770
  {
    hide Rot, XorW, Pow2;
    Turned(0xc2effa8a, 19, 0x6177f, 0x1a8a);
    XorWhole(0x0662500f, 0xd456177f);
  }

  lemma Step19()
    ensures Sub(0x707ae448, 0xd2344770, 4) == 0xbd02ebd5
  {
    hide Rot, XorW, Pow2;
    Turned(0xd2344770, 4, 0xd, 0x2344770);
    XorWhole(0x9e469cd8, 0x2344770d);
  }

  lemma Step20()
    ensures Fold(0xbd02ebd5, 0x059f95a9, 14) == 0xd3333d15
  {
    hide Rot, XorW, Pow2;
    Turned(0x059f95a9, 14, 0x167, 0x395a9);
    XorWhole(0xbd02ebd5, 0x059f95a9);
  }

  lemma Step21()
    ensures Fold(0x948b5244, 0xd3333d15, 11) == 0xadcfc0b8
  {
    hide Rot, XorW, Pow2;
    Turned(0xd3333d15, 11, 0x699, 0x133d15);
    XorWhole(0x948b5244, 0xd3333d15);
  }

  lemma Step22()
    ensures Fold(0x059f95a9, 0xadcfc0b8, 25) == 0x36f4b590
  {
    hide Rot, XorW, Pow2;
    Turned(0xadcfc0b8, 25, 0x15b9f81, 0x38);
    XorWhole(0x059f95a9, 0xadcfc0b8);
  }

  lemma Step23()
    ensures Fold(0xd3333d15, 0x36f4b590, 16) == 0x30375191
  {
    hide Rot, XorW, Pow2;
    Turned(0x36f4b590, 16, 0x36f4, 0xb590);
    XorWhole(0xd3333d15, 0x36f4b590);
  }

  lemma Step24()
    ensures Fold(0xadcfc0b8, 0x30375191, 4) == 0x9a837816
  {
    hide Rot, XorW, Pow2;
    Turned(0x30375191, 4, 0x3, 0x375191);
    XorWhole(0xadcfc0b8, 0x30375191);
  }

  lemma Step25()
    ensures Fold(0x36f4b590, 0x9a837816, 14) == 0xce7226e6
  {
    hide Rot, XorW, Pow2;
    Turned(0x9a837816, 14, 0x26a0, 0x37816);
    XorWhole(0x36f4b590, 0x9a837816);
  }

  lemma Step26()
    ensures Fold(0x30375191, 0xce7226e6, 24) == 0x17770551
  {
    hide Rot, XorW, Pow2;
    Turned(0xce7226e6, 24, 0xce7226, 0xe6);
    XorWhole(0x30375191, 0xce7226e6);
  }

  lemma ShortFinal()
    ensures Final(State(0xdeadbf51, 0xdeadbef0, 0xdeadbef0)) == State(0x9d14722c, 0x582647ac, 0x58d68708)
  {
    hide Fold;
    Step1();
    Step2();
    Step3();
    Step4();
    Step5();
    Step6();
    Step7();
  }

  lemma LongMix1()
    ensures Mix(State(0x51232e53, 0x4e11322d, 0x3fce247f)) == State(0xf859ad7a, 0x04bc57ae, 0x40dddd7e)
  {
    hide Sub;
    Step8();
    Step9();
    Step10();
    Step11();
    Step12();
    Step13();
  }

  lemma LongMix2()
    ensures Mix(State(0x6b7a11e8, 0x7321ce13, 0xa243569e)) == State(0x336aded2, 0x059f2642, 0xbd02ebd5)
  {
    hide Sub;
    Step14();
    Step15();
    Step16();
    Step17();
    Step18();
    Step19();
  }

  lemma LongFinal()
    ensures Final(State(0x948b5244, 0x059f95a9, 0xbd02ebd5)) == State(0x9a837816, 0xce7226e6, 0x17770551)
  {
    hide Fold;
    Step20();
    Step21();
    Step22();
    Step23();
    Step24();
    Step25();
    Step26();
  }

  // ----- the hashes

  const LongKey: seq<byte> := [70, 111, 117, 114, 32, 115, 99, 111, 114, 101, 32, 97, 110, 100, 32, 115, 101, 118, 101, 110, 32, 121, 101, 97, 114, 115, 32, 97, 103, 111]

  /** The empty key: the initial constant. */
  lemma EmptyKey()
    ensures Hash2([], 0, 0).c == 0xdeadbeef && Hash2([], 0, 0).b == 0xdeadbeef
  {
  }

  /** "a" */
  lemma ShortKey()
    ensures Hash2([97], 0, 0).c == 0x58d68708 && Hash2([97], 0, 0).b == 0x582647ac
  {
    hide Mix, Final;
    var key: seq<byte> := [97];
    assert Begin(1, 0, 0) == State(0xdeadbef0, 0xdeadbef0, 0xdeadbef0);
    assert Add(State(0xdeadbef0, 0xdeadbef0, 0xdeadbef0), key, 0) == State(0xdeadbf51, 0xdeadbef0, 0xdeadbef0);
    ShortFinal();
    assert Absorb(State(0xdeadbef0, 0xdeadbef0, 0xdeadbef0), key, 0) == State(0x9d14722c, 0x582647ac, 0x58d68708);
  }

  /** One block of 12 bytes, and the last one. */
  lemma Block(s: State, key: seq<byte>, p: nat, t: State, r: State)
    requires t == Add(s, key, p) && p < |key|
    ensures p + 12 < |key| && r == Mix(t) ==> Absorb(s, key, p) == Absorb(r, key, p + 12)
    ensures p + 12 >= |key| && r == Final(t) ==> Absorb(s, key, p) == r
  {
    hide Mix, Final, Add;
  }

  lemma LongWords1()
    ensures Add(State(0xdeadbf0d, 0xdeadbf0d, 0xdeadbf0d), LongKey, 0) == State(0x51232e53, 0x4e11322d, 0x3fce247f)
  {
  }

  lemma LongBlock1()
    ensures Absorb(State(0xdeadbf0d, 0xdeadbf0d, 0xdeadbf0d), LongKey, 0) == Absorb(State(0xf859ad7a, 0x04bc57ae, 0x40dddd7e), LongKey, 12)
  {
    hide Absorb, Add, Mix, Final;
    LongWords1();
    LongMix1();
    Block(State(0xdeadbf0d, 0xdeadbf0d, 0xdeadbf0d), LongKey, 0, State(0x51232e53, 0x4e11322d, 0x3fce247f), State(0xf859ad7a, 0x04bc57ae, 0x40dddd7e));
  }

  lemma LongWords2()
    ensures Add(State(0xf859ad7a, 0x04bc57ae, 0x40dddd7e), LongKey, 12) == State(0x6b7a11e8, 0x7321ce13, 0xa243569e)
  {
  }

  lemma LongBlock2()
    ensures Absorb(State(0xf859ad7a, 0x04bc57ae, 0x40dddd7e), LongKey, 12) == Absorb(State(0x336aded2, 0x059f2642, 0xbd02ebd5), LongKey, 24)
  {
    hide Absorb, Add, Mix, Final;
    LongWords2();
    LongMix2();
    Block(State(0xf859ad7a, 0x04bc57ae, 0x40dddd7e), LongKey, 12, State(0x6b7a11e8, 0x7321ce13, 0xa243569e), State(0x336aded2, 0x059f2642, 0xbd02ebd5));
  }

  lemma LongWords3()
    ensures Add(State(0x336aded2, 0x059f2642, 0xbd02ebd5), LongKey, 24) == State(0x948b5244, 0x059f95a9, 0xbd02ebd5)
  {
  }

  lemma LongBlock3()
    ensures Absorb(State(0x336aded2, 0x059f2642, 0xbd02ebd5), LongKey, 24) == State(0x9a837816, 0xce7226e6, 0x17770551)
  {
    hide Absorb, Add, Mix, Final;
    LongWords3();
    LongFinal();
    Block(State(0x336aded2, 0x059f2642, 0xbd02ebd5), LongKey, 24, State(0x948b5244, 0x059f95a9, 0xbd02ebd5), State(0x9a837816, 0xce7226e6, 0x17770551));
  }


  /** "Four score and seven years ago" */
  lemma TwoMixes()
    ensures Hash2(LongKey, 0, 0).c == 0x17770551 && Hash2(LongKey, 0, 0).b == 0xce7226e6
  {
    hide Absorb;
    assert Begin(|LongKey|, 0, 0) == State(0xdeadbf0d, 0xdeadbf0d, 0xdeadbf0d);
    LongBlock1();
    LongBlock2();
    LongBlock3();
  }

  /** What the hash returns, wherever the key lies. */
  method KnownPairs(m: seq<byte>, addr: nat) returns (empty: (word, word), short: (word, word), long: (word, word))
    requires addr + 31 <= |m| && m[addr] == 97 && m[addr + 1..addr + 31] == LongKey
    ensures empty == (0xdeadbeef, 0xdeadbeef) && short == (0x58d68708, 0x582647ac) && long == (0x17770551, 0xce7226e6)
  {
    hide Hash2, WordOf;
    EmptyKey();
    ShortKey();
    TwoMixes();
    assert m[addr..addr] == [] && m[addr..addr + 1] == [97];
    var c, b := HashLittle2(m, addr, 0, 0, 0);
    empty := (c, b);
    c, b := HashLittle2(m, addr, 1, 0, 0);
    short := (c, b);
    c, b := HashLittle2(m, addr + 1, 30, 0, 0);
    long := (c, b);
  }
}
