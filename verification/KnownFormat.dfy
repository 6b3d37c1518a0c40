/** The wire form of a format byte for byte: where the header keeps what, and one description
    in full. */
module KnownFormat {
  import opened Bytes
  import opened ByteOrder
  import opened Wire

  // ----- integers

  /** The w bytes at p hold v, most significant first when big. */
  ghost predicate Holds2(big: bool, b: seq<byte>, p: nat, v: nat) {
    && p + 2 <= |b|
    && if big then b[p] == v / 0x100 && b[p + 1] == v % 0x100 else b[p] == v % 0x100 && b[p + 1] == v / 0x100
  }

  ghost predicate Holds4(big: bool, b: seq<byte>, p: nat, v: nat) {
    && p + 4 <= |b|
    && var b0, b1, b2, b3 := v % 0x100, v / 0x100 % 0x100, v / 0x1_0000 % 0x100, v / 0x100_0000;
       if big then b[p] == b3 && b[p + 1] == b2 && b[p + 2] == b1 && b[p + 3] == b0
       else b[p] == b0 && b[p + 1] == b1 && b[p + 2] == b2 && b[p + 3] == b3
  }

  lemma Digits4(v: nat)
    requires v < TWO32
    ensures v / 0x100_0000 < 256
    ensures ToLE(v, 4) == [v % 0x100, v / 0x100 % 0x100, v / 0x1_0000 % 0x100, v / 0x100_0000]
  {
    assert v / 256 / 256 == v / 0x1_0000 && v / 0x1_0000 / 256 == v / 0x100_0000;
    assert ToLE(v / 0x100_0000, 1) == [v / 0x100_0000 % 256] + ToLE(v / 0x100_0000 / 256, 0);
    assert ToLE(v / 0x1_0000, 2) == [v / 0x1_0000 % 256] + ToLE(v / 0x1_0000 / 256, 1);
    assert ToLE(v / 0x100, 3) == [v / 0x100 % 256] + ToLE(v / 0x100 / 256, 2);
  }

  lemma Reverse4(x: byte, y: byte, z: byte, w: byte)
    ensures Reverse([x, y, z, w]) == [w, z, y, x]
  {
    assert [x, y, z, w][1..] == [y, z, w] && [y, z, w][1..] == [z, w];
    Reverse2(z, w);
    assert Reverse([y, z, w]) == [w, z] + [y];
  }

  lemma WordAt(big: bool, b: seq<byte>, p: nat, v: nat)
    requires Has(b, p, Enc(big, v, 4)) && v < TWO32
    ensures Holds4(big, b, p, v)
  {
    Digits4(v);
    var s := Enc(big, v, 4);
    Reverse4(v % 0x100, v / 0x100 % 0x100, v / 0x1_0000 % 0x100, v / 0x100_0000);
    assert b[p..p + 4] == s;
    assert b[p] == s[0] && b[p + 1] == s[1] && b[p + 2] == s[2] && b[p + 3] == s[3];
  }

  lemma HalfAt(big: bool, b: seq<byte>, p: nat, v: nat)
    requires Has(b, p, Enc(big, v, 2)) && v < TWO16
    ensures Holds2(big, b, p, v)
  {
    TwoDigits(v);
    var s := Enc(big, v, 2);
    Reverse2(v % 256, v / 256 % 256);
    assert b[p..p + 2] == s;
    assert b[p] == s[0] && b[p + 1] == s[1];
  }

  // ----- the header of a format

  /** The 28 bytes a printed format begins with, wherever it stands. */
  lemma HeadBytes(b: seq<byte>, at: nat, big: bool, floatBig: bool, f: Form)
    requires Has(b, at, SubRep(big, floatBig, f)) && Valid(f)
    ensures var n := |SubRep(big, floatBig, f)|; var i := InfoAt(f);
      && at + n <= |b|
      && Holds2(true, b, at, n % 0x1_0000) && b[at + 2] == 2 && b[at + 3] == (if big then 1 else 0)
      && Holds4(big, b, at + 4, 28 + 16 * |f.fields|) && Holds4(big, b, at + 8, |f.fields|) && Holds4(big, b, at + 12, f.recordLength)
      && b[at + 16] == f.pointerSize && b[at + 17] == 28 && Holds2(floatBig, b, at + 18, f.floatRep)
      && Holds2(big, b, at + 20, i % 0x1_0000) && b[at + 22] == f.columnMajor && b[at + 23] == f.alignment
      && Holds2(true, b, at + 24, n / 0x1_0000) && Holds2(big, b, at + 26, i / 0x1_0000)
  {
    hide Has, Enc, RepSize, InfoAt, NameAt, Holds2, Holds4, Head, FieldTable, Strings, InfoTable, Blocks, StringsAt, BlocksAt, Zeros;
    var a1, a2, a3, a4 := Head(big, floatBig, f), FieldTable(big, f.fields, StringsAt(f)), f.name + [0], Strings(f.fields);
    Offsets(f);
    var a5, a6, a7 := Zeros(InfoAt(f) - StringsAt(f) - |a4|), InfoTable(big, f.infos, BlocksAt(f)), Blocks(f.infos);
    SplitSeven(b, at, a1, a2, a3, a4, a5, a6, a7);
    HasBound(b, at, SubRep(big, floatBig, f));
    Bounds(f);
    HeadWords(b, at, big, floatBig, f, RepSize(f), InfoAt(f), NameAt(f));
  }

  lemma HeadWords(b: seq<byte>, at: nat, big: bool, floatBig: bool, f: Form, n: nat, i: nat, p: nat)
    requires Has(b, at, Head(big, floatBig, f)) && Valid(f) && n == RepSize(f) < TWO31 && i == InfoAt(f) < TWO31 && p == NameAt(f) < TWO31 && |f.fields| < TWO31
    ensures Holds2(true, b, at, n % 0x1_0000) && at + 28 <= |b| && b[at + 2] == 2 && b[at + 3] == (if big then 1 else 0)
    ensures Holds4(big, b, at + 4, p) && Holds4(big, b, at + 8, |f.fields|) && Holds4(big, b, at + 12, f.recordLength)
    ensures b[at + 16] == f.pointerSize && b[at + 17] == 28 && Holds2(floatBig, b, at + 18, f.floatRep)
    ensures Holds2(big, b, at + 20, i % 0x1_0000) && b[at + 22] == f.columnMajor && b[at + 23] == f.alignment
    ensures Holds2(true, b, at + 24, n / 0x1_0000) && Holds2(big, b, at + 26, i / 0x1_0000)
  {
    hide Has, Enc, RepSize, InfoAt, NameAt, Holds2, Holds4, Head;
    HeadParts(b, at, big, floatBig, f);
    HasBound(b, at, Head(big, floatBig, f));
    HalfAt(true, b, at, n % TWO16);
    WordAt(big, b, at + 4, p);
    WordAt(big, b, at + 8, |f.fields|);
    WordAt(big, b, at + 12, f.recordLength);
    HalfAt(floatBig, b, at + 18, f.floatRep);
    HalfAt(big, b, at + 20, i % TWO16);
    HalfAt(true, b, at + 24, n / TWO16);
    HalfAt(big, b, at + 26, i / TWO16);
    PairAt(b, at + 2, 2, Order(big));
    PairAt(b, at + 16, f.pointerSize % 256, HeadSize);
    PairAt(b, at + 22, f.columnMajor % 256, f.alignment % 256);
  }

  lemma PairAt(b: seq<byte>, p: nat, x: byte, y: byte)
    requires Has(b, p, [x, y])
    ensures p + 2 <= |b| && b[p] == x && b[p + 1] == y
  {
    assert b[p..p + 2][0] == x && b[p..p + 2][1] == y;
  }

  /** Where the optional info begins: the next multiple of 4 after the strings. */
  lemma InfoPlace(f: Form)
    ensures var p := 28 + 16 * |f.fields| + |f.name| + 1 + |Strings(f.fields)|; InfoAt(f) == (p + 3) / 4 * 4
  {
  }

  // ----- the fields

  /** Field k: 16 bytes at 28 + 16 * k with the places of its name and type, its size and its
      offset. */
  lemma {:induction false} FieldBytes(b: seq<byte>, at: nat, p: nat, big: bool, fields: seq<Field>, pos: nat, k: nat) returns (q: nat)
    requires Has(b, p, FieldTable(big, fields, pos)) && Has(b, at + pos, Strings(fields)) && pos + |Strings(fields)| < TWO31
    requires k < |fields| && forall i :: 0 <= i < |fields| ==> ValidField(fields[i])
    ensures var f := fields[k]; var r := q + |f.name| + 1;
      && Holds4(big, b, p + 16 * k, q) && Holds4(big, b, p + 16 * k + 4, r)
      && Holds4(big, b, p + 16 * k + 8, f.size) && Holds4(big, b, p + 16 * k + 12, f.offset)
      && Has(b, at + q, f.name + [0]) && Has(b, at + r, f.typ + [0])
    decreases k
  {
    hide Has, Enc, Holds4, NoZero;
    var f := fields[0];
    assert ValidField(f) && ValidField(fields[k]);
    HasSplit(b, p, Entry(big, f, pos), FieldTable(big, fields[1..], pos + |FieldStrings(f)|));
    HasSplit(b, at + pos, FieldStrings(f), Strings(fields[1..]));
    if k == 0 {
      q := pos;
      var a, c, d, e := Enc(big, pos, 4), Enc(big, pos + |f.name| + 1, 4), Enc(big, f.size, 4), Enc(big, f.offset, 4);
      HasSplit(b, p, a + c + d, e);
      HasSplit(b, p, a + c, d);
      HasSplit(b, p, a, c);
      WordAt(big, b, p, pos);
      WordAt(big, b, p + 4, pos + |f.name| + 1);
      WordAt(big, b, p + 8, f.size);
      WordAt(big, b, p + 12, f.offset);
      HasSplit(b, at + pos, f.name + [0], f.typ + [0]);
    } else {
      q := FieldBytes(b, at, p + 16, big, fields[1..], pos + |FieldStrings(f)|, k - 1);
    }
  }

  /** Item k of the optional info: 12 bytes with its kind, its length and the place of its
      block. */
  lemma {:induction false} InfoBytes(b: seq<byte>, at: nat, p: nat, big: bool, infos: seq<Info>, pos: nat, k: nat) returns (q: nat)
    requires Has(b, p, InfoTable(big, infos, pos)) && Has(b, at + pos, Blocks(infos)) && pos + |Blocks(infos)| < TWO31 && pos % 4 == 0
    requires k < |infos| && forall i :: 0 <= i < |infos| ==> ValidInfo(infos[i])
    ensures Holds4(big, b, p + 12 * k, infos[k].kind) && Holds4(big, b, p + 12 * k + 4, |infos[k].block|)
    ensures Holds4(big, b, p + 12 * k + 8, q) && q % 4 == 0 && Has(b, at + q, infos[k].block)
    decreases k
  {
    hide Has, Enc, Holds4, Padded, Align4;
    var i := infos[0];
    assert ValidInfo(i);
    AlignShift(pos, |i.block|);
    HasSplit(b, p, InfoEntry(big, i, pos), InfoTable(big, infos[1..], Align4(pos + |i.block|)));
    HasSplit(b, at + pos, Padded(i.block), Blocks(infos[1..]));
    if k == 0 {
      q := pos;
      var a, c, d := Enc(big, i.kind, 4), Enc(big, |i.block|, 4), Enc(big, pos, 4);
      HasSplit(b, p, a + c, d);
      HasSplit(b, p, a, c);
      WordAt(big, b, p, i.kind);
      WordAt(big, b, p + 4, |i.block|);
      WordAt(big, b, p + 8, pos);
      PaddedStart(b, at + pos, i.block);
    } else {
      q := InfoBytes(b, at, p + 12, big, infos[1..], Align4(pos + |i.block|), k - 1);
    }
  }

  lemma PaddedStart(b: seq<byte>, p: nat, block: seq<byte>)
    requires Has(b, p, Padded(block))
    ensures Has(b, p, block)
  {
    HasSplit(b, p, block, Zeros(Align4(|block|) - |block|));
  }

  // ----- a printed format

  /** Everything in a printed format: the header, its name after the field table, every field,
      and, from the next multiple of 4 on, the optional info up to an item of kind 0. */
  lemma Printed(b: seq<byte>, at: nat, big: bool, floatBig: bool, f: Form)
    requires Has(b, at, SubRep(big, floatBig, f)) && Valid(f)
    ensures Has(b, at + 28 + 16 * |f.fields|, f.name + [0])
    ensures forall k :: 0 <= k < |f.fields| ==> FieldPrinted(b, at, big, f.fields[k], at + 28 + 16 * k)
    ensures var p := (28 + 16 * |f.fields| + |f.name| + 1 + |Strings(f.fields)| + 3) / 4 * 4;
      && InfoAt(f) == p && Holds4(big, b, at + p + 12 * |f.infos|, 0)
      && forall k :: 0 <= k < |f.infos| ==> InfoPrinted(b, at, big, f.infos[k], at + p + 12 * k)
  {
    hide Has, Enc, RepSize, InfoAt, NameAt, Holds2, Holds4, Head, FieldTable, Strings, InfoTable, Blocks, StringsAt, BlocksAt, FieldPrinted, InfoPrinted, Zeros;
    var a1, a2, a3, a4 := Head(big, floatBig, f), FieldTable(big, f.fields, StringsAt(f)), f.name + [0], Strings(f.fields);
    Offsets(f);
    Bounds(f);
    InfoPlace(f);
    var a5, a6, a7 := Zeros(InfoAt(f) - StringsAt(f) - |a4|), InfoTable(big, f.infos, BlocksAt(f)), Blocks(f.infos);
    SplitSeven(b, at, a1, a2, a3, a4, a5, a6, a7);
    forall k | 0 <= k < |f.fields|
      ensures FieldPrinted(b, at, big, f.fields[k], at + 28 + 16 * k)
    {
      var q := FieldBytes(b, at, at + 28, big, f.fields, StringsAt(f), k);
      FieldIs(b, at, big, f.fields[k], at + 28 + 16 * k, q);
    }
    forall k | 0 <= k < |f.infos|
      ensures InfoPrinted(b, at, big, f.infos[k], at + InfoAt(f) + 12 * k)
    {
      var q := InfoBytes(b, at, at + InfoAt(f), big, f.infos, BlocksAt(f), k);
      InfoIs(b, at, big, f.infos[k], at + InfoAt(f) + 12 * k, q);
    }
    LastInfo(b, at + InfoAt(f), big, f.infos, BlocksAt(f));
  }

  /** The entry at p gives the places of a field's name and type in the format, its size and
      its offset. */
  ghost predicate FieldPrinted(b: seq<byte>, at: nat, big: bool, f: Field, p: nat) {
    exists q: nat :: FieldPlaced(b, at, big, f, p, q)
  }

  ghost predicate FieldPlaced(b: seq<byte>, at: nat, big: bool, f: Field, p: nat, q: nat) {
    var r := q + |f.name| + 1;
    && Holds4(big, b, p, q) && Holds4(big, b, p + 4, r) && Holds4(big, b, p + 8, f.size) && Holds4(big, b, p + 12, f.offset)
    && Has(b, at + q, f.name + [0]) && Has(b, at + r, f.typ + [0])
  }

  lemma FieldIs(b: seq<byte>, at: nat, big: bool, f: Field, p: nat, q: nat)
    requires FieldPlaced(b, at, big, f, p, q)
    ensures FieldPrinted(b, at, big, f, p)
  {
  }

  /** The entry at p gives kind, length and place of an item of optional info. */
  ghost predicate InfoPrinted(b: seq<byte>, at: nat, big: bool, i: Info, p: nat) {
    exists q: nat :: InfoPlaced(b, at, big, i, p, q)
  }

  ghost predicate InfoPlaced(b: seq<byte>, at: nat, big: bool, i: Info, p: nat, q: nat) {
    && Holds4(big, b, p, i.kind) && Holds4(big, b, p + 4, |i.block|) && Holds4(big, b, p + 8, q)
    && q % 4 == 0 && Has(b, at + q, i.block)
  }

  lemma InfoIs(b: seq<byte>, at: nat, big: bool, i: Info, p: nat, q: nat)
    requires InfoPlaced(b, at, big, i, p, q)
    ensures InfoPrinted(b, at, big, i, p)
  {
  }

  lemma {:induction false} LastInfo(b: seq<byte>, p: nat, big: bool, infos: seq<Info>, pos: nat)
    requires Has(b, p, InfoTable(big, infos, pos))
    ensures Holds4(big, b, p + 12 * |infos|, 0)
    decreases |infos|
  {
    hide Has, Enc, Holds4, Align4, Zeros, InfoEntry;
    if infos == [] {
      ZeroWord(b, p, big);
    } else {
      HasSplit(b, p, InfoEntry(big, infos[0], pos), InfoTable(big, infos[1..], Align4(pos + |infos[0].block|)));
      LastInfo(b, p + 12, big, infos[1..], Align4(pos + |infos[0].block|));
    }
  }

  lemma ZeroWord(b: seq<byte>, p: nat, big: bool)
    requires Has(b, p, Zeros(12))
    ensures Holds4(big, b, p, 0)
  {
    assert b[p..p + 12] == Zeros(12);
    assert b[p] == Zeros(12)[0] && b[p + 1] == Zeros(12)[1] && b[p + 2] == Zeros(12)[2] && b[p + 3] == Zeros(12)[3];
  }

  /** The 8 bytes a description begins with; the format follows, then its subformats. */
  lemma TopBytes(d: Description, big: bool, floatBig: bool)
    requires ValidDescription(d)
    ensures var b := FormatRep(big, floatBig, d);
      && Holds2(true, b, 0, |b| % 0x1_0000) && b[2] == (if big then 1 else 0) && b[3] == 2
      && b[4] == |d.subs| && b[5] == 0 && Holds2(true, b, 6, |b| / 0x1_0000)
      && Has(b, 8, SubRep(big, floatBig, d.top))
      && Has(b, 8 + |SubRep(big, floatBig, d.top)|, SubReps(big, floatBig, d.subs))
  {
    hide Has, Enc, RepSize, Holds2, SubRep, SubReps, Valid, TopHead, SizeSum;
    var b := FormatRep(big, floatBig, d);
    var h := TopHead(big, |b|, |d.subs|);
    Whole(b);
    HasSplit(b, 0, h + SubRep(big, floatBig, d.top), SubReps(big, floatBig, d.subs));
    HasSplit(b, 0, h, SubRep(big, floatBig, d.top));
    TopParts(b, big, |b|, |d.subs|);
  }

  lemma TopParts(b: seq<byte>, big: bool, n: nat, c: nat)
    requires Has(b, 0, TopHead(big, n, c)) && n < TWO32 && c < 100
    ensures 8 <= |b| && Holds2(true, b, 0, n % 0x1_0000) && b[2] == (if big then 1 else 0) && b[3] == 2
    ensures b[4] == c && b[5] == 0 && Holds2(true, b, 6, n / 0x1_0000)
  {
    hide Has, Enc, Holds2;
    var q1, q2, q3, q4 := Enc(true, n % TWO16, 2), [Order(big), 2], [c % 256, 0], Enc(true, n / TWO16 % TWO16, 2);
    HasBound(b, 0, TopHead(big, n, c));
    HasSplit(b, 0, q1 + q2 + q3, q4);
    HasSplit(b, 0, q1 + q2, q3);
    HasSplit(b, 0, q1, q2);
    PairAt(b, 2, Order(big), 2);
    PairAt(b, 4, c % 256, 0);
    HalfAt(true, b, 0, n % TWO16);
    HalfAt(true, b, 6, n / TWO16 % TWO16);
  }

  /** The subformats stand one after the other. */
  lemma {:induction false} SubPrinted(b: seq<byte>, at: nat, big: bool, floatBig: bool, fs: seq<Form>, k: nat)
    requires Has(b, at, SubReps(big, floatBig, fs)) && k < |fs|
    ensures Has(b, at + SizeSum(fs[..k]), SubRep(big, floatBig, fs[k]))
    decreases k
  {
    hide Has, SubRep, RepSize;
    HasSplit(b, at, SubRep(big, floatBig, fs[0]), SubReps(big, floatBig, fs[1..]));
    if k > 0 {
      SubPrinted(b, at + RepSize(fs[0]), big, floatBig, fs[1..], k - 1);
      assert fs[..k][0] == fs[0] && fs[..k][1..] == fs[1..][..k - 1] && fs[1..][k - 1] == fs[k];
    } else {
      assert fs[..0] == [];
    }
  }

  // ----- kinds of floats, and format IDs

  /** A record that does not say how its floats are kept is read as IEEE in its own order. */
  lemma UnknownFloat(b: seq<byte>, at: nat, big: bool, f: Form, host: bool)
    requires Has(b, at, SubRep(big, big, f)) && Valid(f)
    ensures ParseSub(b, at, host).floatRep == if f.floatRep != 0 then f.floatRep else if big then 1 else 2
  {
    hide ParseSub, SubRep, Has, Valid;
    SubBack(b, at, big, big, f, host);
  }

  /** The 12 bytes of a format ID: version 2, the length in units of 4 bytes, two hashes. */
  lemma IdBytes(len: nat, hash1: nat, hash2: nat)
    requires hash1 < TWO32 && hash2 < TWO32
    ensures var id := FormatID(len, hash1, hash2);
      && id[0] == 2 && id[1] == len / 0x4_0000 % 0x100 && id[2] == len / 0x400 % 0x100 && id[3] == len / 4 % 0x100
      && Holds4(true, id, 4, hash1) && Holds4(true, id, 8, hash2)
  {
    hide Has, Enc, Holds4, Holds2;
    var id := FormatID(len, hash1, hash2);
    var a, b, c, e := [2, len / 0x4_0000 % 256], Enc(true, len / 4 % TWO16, 2), Enc(true, hash1, 4), Enc(true, hash2, 4);
    Whole(id);
    HasSplit(id, 0, a + b + c, e);
    HasSplit(id, 0, a + b, c);
    HasSplit(id, 0, a, b);
    PairAt(id, 0, 2, len / 0x4_0000 % 256);
    IdMiddle(id, len);
    WordAt(true, id, 4, hash1);
    WordAt(true, id, 8, hash2);
  }

  lemma IdMiddle(id: seq<byte>, len: nat)
    requires Has(id, 2, Enc(true, len / 4 % TWO16, 2))
    ensures 4 <= |id| && id[2] == len / 0x400 % 0x100 && id[3] == len / 4 % 0x100
  {
    HalfAt(true, id, 2, len / 4 % TWO16);
    Middle(len / 4);
    Quarter(len);
  }

  lemma Quarter(len: nat)
    ensures len / 0x400 == len / 4 / 0x100
  {
  }

  lemma Middle(q: nat)
    ensures q % 0x1_0000 % 0x100 == q % 0x100 && q % 0x1_0000 / 0x100 == q / 0x100 % 0x100
  {
    var h, r := q / 0x1_0000, q % 0x1_0000;
    assert q == 0x100 * (0x100 * h + r / 0x100) + r % 0x100;
    Parts(q, 0x100 * h + r / 0x100, r % 0x100);
    Parts(q / 0x100, h, r / 0x100);
  }

  lemma Parts(x: nat, h: nat, r: nat)
    requires x == 0x100 * h + r && r < 0x100
    ensures x / 0x100 == h && x % 0x100 == r
  {
  }
}
