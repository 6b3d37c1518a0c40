/** The wire form of format descriptions: what registration prints, and what a reader of
    either byte order parses back. */
module Wire {
  import opened Bytes
  import opened ByteOrder

  datatype Field = Field(name: seq<byte>, typ: seq<byte>, size: nat, offset: nat)

  datatype Info = Info(kind: nat, block: seq<byte>)

  /** A format without its subformats. */
  datatype Form = Form(name: seq<byte>, fields: seq<Field>, recordLength: nat, pointerSize: nat,
                       floatRep: nat, columnMajor: nat, alignment: nat, infos: seq<Info>)

  const TWO26: nat := 0x400_0000

  const HeadSize: nat := 28
  const FieldSize: nat := 16
  const InfoSize: nat := 12

  // ----- strings

  predicate NoZero(s: seq<byte>) {
    forall i :: 0 <= i < |s| ==> s[i] != 0
  }

  function CString(b: seq<byte>, p: nat): seq<byte>
    decreases |b| - p
  {
    if p < |b| && b[p] != 0 then [b[p]] + CString(b, p + 1) else []
  }

  lemma {:induction false} StringBack(b: seq<byte>, p: nat, s: seq<byte>)
    requires Has(b, p, s + [0]) && NoZero(s)
    ensures CString(b, p) == s
    decreases |s|
  {
    var w := b[p..p + |s + [0]|];
    assert w[|s|] == 0;
    if s != [] {
      assert w[0] == s[0];
      assert s + [0] == [s[0]] + (s[1..] + [0]);
      HasSplit(b, p, [s[0]], s[1..] + [0]);
      StringBack(b, p + 1, s[1..]);
    }
  }

  // ----- what is printed

  function Entry(big: bool, f: Field, pos: nat): (s: seq<byte>)
    ensures |s| == FieldSize
  {
    Enc(big, pos, 4) + Enc(big, pos + |f.name| + 1, 4) + Enc(big, f.size, 4) + Enc(big, f.offset, 4)
  }

  /** The field table; the strings of the first field are at pos. */
  function FieldTable(big: bool, fields: seq<Field>, pos: nat): (s: seq<byte>)
    ensures |s| == FieldSize * |fields|
  {
    if fields == [] then []
    else Entry(big, fields[0], pos) + FieldTable(big, fields[1..], pos + |FieldStrings(fields[0])|)
  }

  function FieldStrings(f: Field): (s: seq<byte>)
    ensures |s| == |f.name| + |f.typ| + 2
  {
    f.name + [0] + (f.typ + [0])
  }

  function Strings(fields: seq<Field>): seq<byte> {
    if fields == [] then [] else FieldStrings(fields[0]) + Strings(fields[1..])
  }

  function InfoEntry(big: bool, i: Info, pos: nat): (s: seq<byte>)
    ensures |s| == InfoSize
  {
    Enc(big, i.kind, 4) + Enc(big, |i.block|, 4) + Enc(big, pos, 4)
  }

  /** The table of optional info, its blocks from pos on, and the entry that ends it. */
  function InfoTable(big: bool, infos: seq<Info>, pos: nat): (s: seq<byte>)
    ensures |s| == InfoSize * (|infos| + 1)
  {
    if infos == [] then Zeros(InfoSize)
    else InfoEntry(big, infos[0], pos) + InfoTable(big, infos[1..], Align4(pos + |infos[0].block|))
  }

  function Padded(block: seq<byte>): (s: seq<byte>)
    ensures |s| == Align4(|block|)
  {
    block + Zeros(Align4(|block|) - |block|)
  }

  function Blocks(infos: seq<Info>): (s: seq<byte>)
    ensures |s| % 4 == 0
  {
    if infos == [] then [] else Padded(infos[0].block) + Blocks(infos[1..])
  }

  /** Where the name, the field strings, the table of optional info and its blocks begin. */
  function NameAt(f: Form): nat {
    HeadSize + FieldSize * |f.fields|
  }

  function StringsAt(f: Form): nat {
    NameAt(f) + |f.name| + 1
  }

  function InfoAt(f: Form): (p: nat)
    ensures p % 4 == 0
  {
    Align4(StringsAt(f) + |Strings(f.fields)|)
  }

  function BlocksAt(f: Form): (p: nat)
    ensures p % 4 == 0
  {
    InfoAt(f) + InfoSize * (|f.infos| + 1)
  }

  function RepSize(f: Form): (n: nat)
    ensures n % 4 == 0
  {
    BlocksAt(f) + |Blocks(f.infos)|
  }

  function Order(big: bool): byte {
    if big then 1 else 0
  }

  function Head(big: bool, floatBig: bool, f: Form): (s: seq<byte>)
    ensures |s| == HeadSize
  {
    Enc(true, RepSize(f) % TWO16, 2) + [2, Order(big)]
    + Enc(big, NameAt(f), 4) + Enc(big, |f.fields|, 4) + Enc(big, f.recordLength, 4)
    + [f.pointerSize % 256, HeadSize] + Enc(floatBig, f.floatRep, 2)
    + Enc(big, InfoAt(f) % TWO16, 2) + [f.columnMajor % 256, f.alignment % 256]
    + Enc(true, RepSize(f) / TWO16, 2) + Enc(big, InfoAt(f) / TWO16, 2)
  }

  /** The printed form of one format. `big` is the order of its integers; the float kind is
      never swapped and has the writing host's order. */
  function SubRep(big: bool, floatBig: bool, f: Form): (s: seq<byte>)
    ensures |s| == RepSize(f)
  {
    Head(big, floatBig, f) + FieldTable(big, f.fields, StringsAt(f)) + (f.name + [0]) + Strings(f.fields)
    + Zeros(InfoAt(f) - StringsAt(f) - |Strings(f.fields)|)
    + InfoTable(big, f.infos, BlocksAt(f)) + Blocks(f.infos)
  }

  predicate ValidField(f: Field) {
    NoZero(f.name) && NoZero(f.typ) && f.size < TWO31 && f.offset < TWO31
  }

  predicate ValidInfo(i: Info) {
    0 < i.kind < TWO31 && |i.block| < TWO31
  }

  /** The values fit the C fields that hold them. */
  predicate Valid(f: Form) {
    && NoZero(f.name) && f.recordLength < TWO31 && f.pointerSize < 256 && f.floatRep < TWO16
    && f.columnMajor < 256 && f.alignment < 256 && RepSize(f) < TWO31
    && (forall i :: 0 <= i < |f.fields| ==> ValidField(f.fields[i]))
    && (forall i :: 0 <= i < |f.infos| ==> ValidInfo(f.infos[i]))
  }

  // ----- what is parsed

  function ParseFields(b: seq<byte>, at: nat, p: nat, n: nat, host: bool, swap: bool): (fs: seq<Field>)
    ensures |fs| == n
    decreases n
  {
    if n == 0 then []
    else
      [Field(CString(b, at + ReadInt(b, p, 4, host, swap)), CString(b, at + ReadInt(b, p + 4, 4, host, swap)),
             ReadInt(b, p + 8, 4, host, swap), ReadInt(b, p + 12, 4, host, swap))]
      + ParseFields(b, at, p + FieldSize, n - 1, host, swap)
  }

  /** Entries up to the one whose kind is 0. */
  function ParseInfos(b: seq<byte>, at: nat, p: nat, host: bool, swap: bool): seq<Info>
    decreases |b| - p
  {
    if p >= |b| || Load(b, p, 4) == Zeros(4) then []
    else
      [Info(ReadInt(b, p, 4, host, swap), Load(b, at + ReadInt(b, p + 8, 4, host, swap), ReadInt(b, p + 4, 4, host, swap)))]
      + ParseInfos(b, at, p + InfoSize, host, swap)
  }

  /** Old writers left the kind of floats unknown: IEEE in the record's order. */
  function KnownFloat(rep: nat, order: nat): nat {
    if rep != 0 then rep else if order == 1 then 1 else 2
  }

  function Byte(b: seq<byte>, p: nat): byte {
    Load(b, p, 1)[0]
  }

  function Swap(b: seq<byte>, at: nat, host: bool): bool {
    (Byte(b, at + 3) % 2 == 1) != host
  }

  function InfoOffset(b: seq<byte>, at: nat, host: bool): nat {
    ReadInt(b, at + 20, 2, host, Swap(b, at, host)) + TWO16 * ReadInt(b, at + 26, 2, host, Swap(b, at, host))
  }

  function ParseSub(b: seq<byte>, at: nat, host: bool): Form {
    var swap := Swap(b, at, host);
    Form(
      CString(b, at + ReadInt(b, at + 4, 4, host, swap)),
      ParseFields(b, at, at + Byte(b, at + 17), ReadInt(b, at + 8, 4, host, swap), host, swap),
      ReadInt(b, at + 12, 4, host, swap),
      Byte(b, at + 16),
      KnownFloat(ReadInt(b, at + 18, 2, host, swap), Byte(b, at + 3)),
      Byte(b, at + 22),
      Byte(b, at + 23),
      if InfoOffset(b, at, host) == 0 then [] else ParseInfos(b, at, at + InfoOffset(b, at, host), host, swap))
  }

  /** The length of a part, in network order. */
  function RepLength(b: seq<byte>, at: nat): nat {
    Dec(true, Load(b, at, 2)) + TWO16 * Dec(true, Load(b, at + 24, 2))
  }

  // ----- round trip of one format

  lemma {:induction false} FieldsBack(b: seq<byte>, at: nat, p: nat, big: bool, fields: seq<Field>, pos: nat, host: bool)
    requires Has(b, p, FieldTable(big, fields, pos)) && Has(b, at + pos, Strings(fields)) && pos + |Strings(fields)| < TWO31
    requires forall i :: 0 <= i < |fields| ==> ValidField(fields[i])
    ensures ParseFields(b, at, p, |fields|, host, big != host) == fields
    decreases |fields|
  {
    hide Has, Enc, ReadInt, CString, Load, NoZero;
    if fields != [] {
      var f := fields[0];
      assert ValidField(f);
      HasSplit(b, p, Entry(big, f, pos), FieldTable(big, fields[1..], pos + |FieldStrings(f)|));
      HasSplit(b, at + pos, FieldStrings(f), Strings(fields[1..]));
      EntryBack(b, at, p, big, f, pos, host);
      FieldsBack(b, at, p + FieldSize, big, fields[1..], pos + |FieldStrings(f)|, host);
    }
  }

  lemma EntryBack(b: seq<byte>, at: nat, p: nat, big: bool, f: Field, pos: nat, host: bool)
    requires Has(b, p, Entry(big, f, pos)) && Has(b, at + pos, FieldStrings(f)) && pos + |FieldStrings(f)| < TWO31 && ValidField(f)
    ensures ReadInt(b, p, 4, host, big != host) == pos && ReadInt(b, p + 4, 4, host, big != host) == pos + |f.name| + 1
    ensures ReadInt(b, p + 8, 4, host, big != host) == f.size && ReadInt(b, p + 12, 4, host, big != host) == f.offset
    ensures CString(b, at + pos) == f.name && CString(b, at + pos + |f.name| + 1) == f.typ
  {
    hide Has, Enc, ReadInt, CString, Load, NoZero;
    PowersAre();
    var a, c, d, e := Enc(big, pos, 4), Enc(big, pos + |f.name| + 1, 4), Enc(big, f.size, 4), Enc(big, f.offset, 4);
    HasSplit(b, p, a + c + d, e);
    HasSplit(b, p, a + c, d);
    HasSplit(b, p, a, c);
    ReadBack(b, p, 4, pos, big, host);
    ReadBack(b, p + 4, 4, pos + |f.name| + 1, big, host);
    ReadBack(b, p + 8, 4, f.size, big, host);
    ReadBack(b, p + 12, 4, f.offset, big, host);
    HasSplit(b, at + pos, f.name + [0], f.typ + [0]);
    StringBack(b, at + pos, f.name);
    StringBack(b, at + pos + |f.name| + 1, f.typ);
  }

  lemma EncZero(big: bool, v: nat)
    requires v < TWO32
    ensures Enc(big, v, 4) == Zeros(4) <==> v == 0
  {
    PowersAre();
    DecEnc(big, v, 4);
    assert Zeros(4)[1..] == Zeros(3) && Zeros(3)[1..] == Zeros(2) && Zeros(2)[1..] == Zeros(1) && Zeros(1)[1..] == [];
    assert FromLE(Zeros(1)) == 0 && FromLE(Zeros(2)) == 0 && FromLE(Zeros(3)) == 0;
    ZerosReverse();
    if v == 0 {
      DecEnc(big, 0, 4);
      ToFromLE(Zeros(4));
    }
  }

  lemma ZerosReverse()
    ensures Reverse(Zeros(4)) == Zeros(4)
  {
    assert Zeros(4)[1..] == Zeros(3) && Zeros(3)[1..] == Zeros(2) && Zeros(2)[1..] == Zeros(1) && Zeros(1)[1..] == [];
    assert Reverse(Zeros(1)) == Zeros(1);
    assert Reverse(Zeros(2)) == Zeros(2);
    assert Reverse(Zeros(3)) == Zeros(3);
  }

  lemma {:induction false} InfosBack(b: seq<byte>, at: nat, p: nat, big: bool, infos: seq<Info>, pos: nat, host: bool)
    requires Has(b, p, InfoTable(big, infos, pos)) && Has(b, at + pos, Blocks(infos)) && pos + |Blocks(infos)| < TWO31 && pos % 4 == 0
    requires forall i :: 0 <= i < |infos| ==> ValidInfo(infos[i])
    ensures ParseInfos(b, at, p, host, big != host) == infos
    decreases |infos|
  {
    hide Enc, ReadInt, Zeros, Has, Load, Padded, Align4;
    if infos == [] {
      FirstFour(b, p);
    } else {
      var i := infos[0];
      assert ValidInfo(i);
      var next := Align4(pos + |i.block|);
      AlignShift(pos, |i.block|);
      HasSplit(b, p, InfoEntry(big, i, pos), InfoTable(big, infos[1..], next));
      HasSplit(b, at + pos, Padded(i.block), Blocks(infos[1..]));
      InfoBack(b, at, p, big, i, pos, host);
      InfosBack(b, at, p + InfoSize, big, infos[1..], next, host);
    }
  }

  lemma AlignShift(p: nat, n: nat)
    requires p % 4 == 0
    ensures Align4(p + n) == p + Align4(n)
  {
    assert (p + n) % 4 == n % 4;
  }

  lemma FirstFour(b: seq<byte>, p: nat)
    requires Has(b, p, Zeros(12))
    ensures Load(b, p, 4) == Zeros(4)
  {
    assert Load(b, p, 4) == b[p..p + 12][..4];
  }

  lemma InfoBack(b: seq<byte>, at: nat, p: nat, big: bool, i: Info, pos: nat, host: bool)
    requires Has(b, p, InfoEntry(big, i, pos)) && Has(b, at + pos, Padded(i.block)) && pos < TWO31 && ValidInfo(i)
    ensures Load(b, p, 4) != Zeros(4) && p < |b|
    ensures ReadInt(b, p, 4, host, big != host) == i.kind && ReadInt(b, p + 4, 4, host, big != host) == |i.block|
    ensures ReadInt(b, p + 8, 4, host, big != host) == pos
    ensures Load(b, at + pos, |i.block|) == i.block
  {
    hide Enc, ReadInt;
    PowersAre();
    var a, c, d := Enc(big, i.kind, 4), Enc(big, |i.block|, 4), Enc(big, pos, 4);
    HasSplit(b, p, a + c, d);
    HasSplit(b, p, a, c);
    ReadBack(b, p, 4, i.kind, big, host);
    ReadBack(b, p + 4, 4, |i.block|, big, host);
    ReadBack(b, p + 8, 4, pos, big, host);
    EncZero(big, i.kind);
    HasLoad(b, p, a);
    HasSplit(b, at + pos, i.block, Zeros(Align4(|i.block|) - |i.block|));
    HasLoad(b, at + pos, i.block);
  }

  /** The header read back. */
  lemma HeadBack(b: seq<byte>, at: nat, big: bool, floatBig: bool, f: Form, host: bool)
    requires Has(b, at, Head(big, floatBig, f)) && Valid(f)
    ensures Byte(b, at + 2) == 2 && Byte(b, at + 3) == Order(big) && Swap(b, at, host) == (big != host)
    ensures ReadInt(b, at + 4, 4, host, big != host) == NameAt(f) && ReadInt(b, at + 8, 4, host, big != host) == |f.fields|
    ensures ReadInt(b, at + 12, 4, host, big != host) == f.recordLength
    ensures Byte(b, at + 16) == f.pointerSize && Byte(b, at + 17) == HeadSize
    ensures ReadInt(b, at + 18, 2, host, big != host) == FloatRead(big, floatBig, f.floatRep)
    ensures InfoOffset(b, at, host) == InfoAt(f)
    ensures Byte(b, at + 22) == f.columnMajor && Byte(b, at + 23) == f.alignment
    ensures RepLength(b, at) == RepSize(f)
  {
    hide Has, Enc, ReadInt, Load, RepSize, InfoAt, NameAt, Swap, Dec, Byte, Head;
    PowersAre();
    Bounds(f);
    HeadParts(b, at, big, floatBig, f);
    TwoBytes(b, at + 2, 2, Order(big));
    SwapBack(b, at, big, host);
    ReadBack(b, at + 4, 4, NameAt(f), big, host);
    ReadBack(b, at + 8, 4, |f.fields|, big, host);
    ReadBack(b, at + 12, 4, f.recordLength, big, host);
    TwoBytes(b, at + 16, f.pointerSize % 256, HeadSize);
    FloatBack(b, at + 18, f.floatRep, big, floatBig, host);
    ReadBack(b, at + 20, 2, InfoAt(f) % TWO16, big, host);
    TwoBytes(b, at + 22, f.columnMajor % 256, f.alignment % 256);
    ReadBack(b, at + 26, 2, InfoAt(f) / TWO16, big, host);
    NetBack(b, at, RepSize(f) % TWO16);
    NetBack(b, at + 24, RepSize(f) / TWO16);
  }

  lemma HeadParts(b: seq<byte>, at: nat, big: bool, floatBig: bool, f: Form)
    requires Has(b, at, Head(big, floatBig, f))
    ensures Has(b, at, Enc(true, RepSize(f) % TWO16, 2)) && Has(b, at + 2, [2, Order(big)])
    ensures Has(b, at + 4, Enc(big, NameAt(f), 4)) && Has(b, at + 8, Enc(big, |f.fields|, 4)) && Has(b, at + 12, Enc(big, f.recordLength, 4))
    ensures Has(b, at + 16, [f.pointerSize % 256, HeadSize]) && Has(b, at + 18, Enc(floatBig, f.floatRep, 2))
    ensures Has(b, at + 20, Enc(big, InfoAt(f) % TWO16, 2)) && Has(b, at + 22, [f.columnMajor % 256, f.alignment % 256])
    ensures Has(b, at + 24, Enc(true, RepSize(f) / TWO16, 2)) && Has(b, at + 26, Enc(big, InfoAt(f) / TWO16, 2))
  {
    hide Has, Enc, RepSize, InfoAt, NameAt;
    var p1, p2 := Enc(true, RepSize(f) % TWO16, 2), [2, Order(big)];
    var p3, p4, p5 := Enc(big, NameAt(f), 4), Enc(big, |f.fields|, 4), Enc(big, f.recordLength, 4);
    var p6, p7 := [f.pointerSize % 256, HeadSize], Enc(floatBig, f.floatRep, 2);
    var p8, p9 := Enc(big, InfoAt(f) % TWO16, 2), [f.columnMajor % 256, f.alignment % 256];
    var p10, p11 := Enc(true, RepSize(f) / TWO16, 2), Enc(big, InfoAt(f) / TWO16, 2);
    HasSplit(b, at, p1 + p2 + p3 + p4 + p5 + p6 + p7 + p8 + p9 + p10, p11);
    HasSplit(b, at, p1 + p2 + p3 + p4 + p5 + p6 + p7 + p8 + p9, p10);
    HasSplit(b, at, p1 + p2 + p3 + p4 + p5 + p6 + p7 + p8, p9);
    HasSplit(b, at, p1 + p2 + p3 + p4 + p5 + p6 + p7, p8);
    HasSplit(b, at, p1 + p2 + p3 + p4 + p5 + p6, p7);
    HasSplit(b, at, p1 + p2 + p3 + p4 + p5, p6);
    HasSplit(b, at, p1 + p2 + p3 + p4, p5);
    HasSplit(b, at, p1 + p2 + p3, p4);
    HasSplit(b, at, p1 + p2, p3);
    HasSplit(b, at, p1, p2);
  }

  lemma Bounds(f: Form)
    requires Valid(f)
    ensures NameAt(f) < TWO31 && |f.fields| < TWO31 && InfoAt(f) < TWO31 && RepSize(f) < TWO31
    ensures StringsAt(f) + |Strings(f.fields)| < TWO31 && BlocksAt(f) + |Blocks(f.infos)| < TWO31 && InfoAt(f) > 0
  {
  }

  lemma TwoBytes(b: seq<byte>, p: nat, x: byte, y: byte)
    requires Has(b, p, [x, y])
    ensures Byte(b, p) == x && Byte(b, p + 1) == y
  {
    assert b[p..p + 2][0] == x && b[p..p + 2][1] == y;
  }

  lemma SwapBack(b: seq<byte>, at: nat, big: bool, host: bool)
    requires Byte(b, at + 3) == Order(big)
    ensures Swap(b, at, host) == (big != host)
  {
  }

  lemma NetBack(b: seq<byte>, p: nat, v: nat)
    requires Has(b, p, Enc(true, v, 2)) && v < TWO16
    ensures Dec(true, Load(b, p, 2)) == v
  {
    PowersAre();
    HasLoad(b, p, Enc(true, v, 2));
    DecEnc(true, v, 2);
  }

  /** What a reader makes of the float kind: swapped unless it was printed in the order of
      the record. */
  function FloatRead(big: bool, floatBig: bool, v: nat): nat {
    if big == floatBig then v else v / 256 % 256 + 256 * (v % 256)
  }

  lemma FloatBack(b: seq<byte>, p: nat, v: nat, big: bool, floatBig: bool, host: bool)
    requires Has(b, p, Enc(floatBig, v, 2)) && v < TWO16
    ensures ReadInt(b, p, 2, host, big != host) == FloatRead(big, floatBig, v)
  {
    PowersAre();
    if big == floatBig {
      ReadBack(b, p, 2, v, big, host);
    } else {
      var w := FloatRead(big, floatBig, v);
      assert ToLE(v, 2) == [v % 256, v / 256 % 256] by { TwoDigits(v); }
      assert ToLE(w, 2) == [w % 256, w / 256 % 256] by { TwoDigits(w); }
      Reverse2(v % 256, v / 256 % 256);
      assert w % 256 == v / 256 % 256 && w / 256 % 256 == v % 256;
      Reverse2(w % 256, w / 256 % 256);
      assert Enc(floatBig, v, 2) == Enc(big, w, 2);
      ReadBack(b, p, 2, w, big, host);
    }
  }

  lemma TwoDigits(v: nat)
    ensures ToLE(v, 2) == [v % 256, v / 256 % 256]
  {
    assert ToLE(v / 256, 1) == [v / 256 % 256] + ToLE(v / 256 / 256, 0);
  }

  lemma Reverse2(x: byte, y: byte)
    ensures Reverse([x, y]) == [y, x]
  {
    assert [x, y][1..] == [y] && [y][1..] == [];
    assert Reverse([y]) == [y];
  }

  /** What a reader gets: the format that was printed, but for the float kind. */
  function AsRead(big: bool, floatBig: bool, f: Form): Form {
    f.(floatRep := KnownFloat(FloatRead(big, floatBig, f.floatRep), Order(big)))
  }

  /** Parsing a printed format, anywhere in a buffer, on a host of either order. */
  lemma SubBack(b: seq<byte>, at: nat, big: bool, floatBig: bool, f: Form, host: bool)
    requires Has(b, at, SubRep(big, floatBig, f)) && Valid(f)
    ensures ParseSub(b, at, host) == AsRead(big, floatBig, f)
    ensures RepLength(b, at) == RepSize(f)
  {
    hide Has, Enc, ReadInt, Load, RepSize, InfoAt, NameAt, StringsAt, BlocksAt, Swap, Dec, Head, FieldTable, Strings, InfoTable, Blocks, RepLength, InfoOffset, ParseFields, ParseInfos, CString, Byte, KnownFloat, FloatRead, Zeros;
    Bounds(f);
    Offsets(f);
    var a1, a2, a3, a4 := Head(big, floatBig, f), FieldTable(big, f.fields, StringsAt(f)), f.name + [0], Strings(f.fields);
    var a5, a6, a7 := Zeros(InfoAt(f) - StringsAt(f) - |a4|), InfoTable(big, f.infos, BlocksAt(f)), Blocks(f.infos);
    SplitSeven(b, at, a1, a2, a3, a4, a5, a6, a7);
    HeadBack(b, at, big, floatBig, f, host);
    StringBack(b, at + NameAt(f), f.name);
    FieldsBack(b, at, at + HeadSize, big, f.fields, StringsAt(f), host);
    InfosBack(b, at, at + InfoAt(f), big, f.infos, BlocksAt(f), host);
  }

  lemma Offsets(f: Form)
    ensures NameAt(f) == HeadSize + FieldSize * |f.fields| && StringsAt(f) == NameAt(f) + |f.name| + 1
    ensures StringsAt(f) + |Strings(f.fields)| <= InfoAt(f) && BlocksAt(f) == InfoAt(f) + InfoSize * (|f.infos| + 1)
  {
  }

  // ----- a format with its subformats

  datatype Description = Description(top: Form, subs: seq<Form>)

  function SizeSum(fs: seq<Form>): nat {
    if fs == [] then 0 else RepSize(fs[0]) + SizeSum(fs[1..])
  }

  function SubReps(big: bool, floatBig: bool, fs: seq<Form>): (s: seq<byte>)
    ensures |s| == SizeSum(fs)
  {
    if fs == [] then [] else SubRep(big, floatBig, fs[0]) + SubReps(big, floatBig, fs[1..])
  }

  function TopHead(big: bool, size: nat, count: nat): (s: seq<byte>)
    ensures |s| == 8
  {
    Enc(true, size % TWO16, 2) + [Order(big), 2] + [count % 256, 0] + Enc(true, size / TWO16 % TWO16, 2)
  }

  function DescriptionSize(d: Description): nat {
    8 + RepSize(d.top) + SizeSum(d.subs)
  }

  lemma {:induction false} SizeSum4(fs: seq<Form>)
    ensures SizeSum(fs) % 4 == 0
  {
    if fs != [] {
      SizeSum4(fs[1..]);
      Sum4(RepSize(fs[0]), SizeSum(fs[1..]));
    }
  }

  lemma Sum4(a: nat, b: nat)
    requires a % 4 == 0 && b % 4 == 0
    ensures (a + b) % 4 == 0
  {
  }

  function FormatRep(big: bool, floatBig: bool, d: Description): (s: seq<byte>)
    ensures |s| == DescriptionSize(d)
  {
    TopHead(big, DescriptionSize(d), |d.subs|) + SubRep(big, floatBig, d.top) + SubReps(big, floatBig, d.subs)
  }

  predicate ValidDescription(d: Description) {
    && Valid(d.top) && |d.subs| < 100 && DescriptionSize(d) < TWO32
    && forall i :: 0 <= i < |d.subs| ==> Valid(d.subs[i])
  }

  function ParseSubs(b: seq<byte>, at: nat, n: nat, host: bool): seq<Form>
    decreases n
  {
    if n == 0 then [] else [ParseSub(b, at, host)] + ParseSubs(b, at + RepLength(b, at), n - 1, host)
  }

  function ParseFormat(b: seq<byte>, host: bool): Description {
    Description(ParseSub(b, 8, host), ParseSubs(b, 8 + RepLength(b, 8), Byte(b, 4), host))
  }

  function TotalLength(b: seq<byte>): nat {
    Dec(true, Load(b, 0, 2)) + TWO16 * Dec(true, Load(b, 6, 2))
  }

  function AllRead(big: bool, floatBig: bool, fs: seq<Form>): (r: seq<Form>)
    ensures |r| == |fs|
  {
    seq(|fs|, i requires 0 <= i < |fs| => AsRead(big, floatBig, fs[i]))
  }

  lemma {:induction false} SubsBack(b: seq<byte>, at: nat, big: bool, floatBig: bool, fs: seq<Form>, host: bool)
    requires Has(b, at, SubReps(big, floatBig, fs)) && forall i :: 0 <= i < |fs| ==> Valid(fs[i])
    ensures ParseSubs(b, at, |fs|, host) == AllRead(big, floatBig, fs)
    decreases |fs|
  {
    hide Has, SubRep, ParseSub, RepLength, Valid, AsRead, RepSize;
    if fs != [] {
      HasSplit(b, at, SubRep(big, floatBig, fs[0]), SubReps(big, floatBig, fs[1..]));
      SubBack(b, at, big, floatBig, fs[0], host);
      SubsBack(b, at + RepSize(fs[0]), big, floatBig, fs[1..], host);
    }
  }

  /** Parsing what was printed. */
  lemma FormatBack(d: Description, big: bool, floatBig: bool, host: bool)
    requires ValidDescription(d)
    ensures var b := FormatRep(big, floatBig, d);
      && ParseFormat(b, host) == Description(AsRead(big, floatBig, d.top), AllRead(big, floatBig, d.subs))
      && TotalLength(b) == |b|
  {
    hide Has, SubRep, SubReps, ParseSub, ParseSubs, RepLength, Valid, AsRead, AllRead, Load, Enc, RepSize, Dec;
    var b := FormatRep(big, floatBig, d);
    var n := DescriptionSize(d);
    var h := TopHead(big, n, |d.subs|);
    Whole(b);
    HasSplit(b, 0, h + SubRep(big, floatBig, d.top), SubReps(big, floatBig, d.subs));
    HasSplit(b, 0, h, SubRep(big, floatBig, d.top));
    SubBack(b, 8, big, floatBig, d.top, host);
    SubsBack(b, 8 + RepSize(d.top), big, floatBig, d.subs, host);
    var q1, q2, q3, q4 := Enc(true, n % TWO16, 2), [Order(big), 2], [|d.subs| % 256, 0], Enc(true, n / TWO16 % TWO16, 2);
    HasSplit(b, 0, q1 + q2 + q3, q4);
    HasSplit(b, 0, q1 + q2, q3);
    HasSplit(b, 0, q1, q2);
    TwoBytes(b, 4, |d.subs| % 256, 0);
    NetBack(b, 0, n % TWO16);
    NetBack(b, 6, n / TWO16 % TWO16);
  }

  predicate FloatsKnown(d: Description) {
    0 < d.top.floatRep && forall i :: 0 <= i < |d.subs| ==> 0 < d.subs[i].floatRep
  }

  /** Main result. A natively ordered format, printed on a host of either order, is parsed
      back unchanged by a reader of either order: names, types, sizes, offsets, alignment,
      optional info and subformats. */
  lemma WireRoundTrip(d: Description, writer: bool, reader: bool)
    requires ValidDescription(d) && FloatsKnown(d)
    ensures ParseFormat(FormatRep(writer, writer, d), reader) == d
    ensures TotalLength(FormatRep(writer, writer, d)) == |FormatRep(writer, writer, d)| == DescriptionSize(d)
    ensures DescriptionSize(d) % 4 == 0
  {
    hide ParseFormat, FormatRep, TotalLength, RepSize, SizeSum;
    SizeSum4(d.subs);
    Sum4(RepSize(d.top), SizeSum(d.subs));
    Sum4(8, RepSize(d.top) + SizeSum(d.subs));
    FormatBack(d, writer, writer, reader);
    assert AllRead(writer, writer, d.subs) == d.subs;
  }

  /** A byte-reversed format loses its float kind unless the kind's two bytes are equal. */
  lemma ReversedFloat(f: Form, big: bool)
    requires Valid(f) && f.floatRep > 0
    ensures AsRead(big, !big, f) == f <==> f.floatRep / 256 == f.floatRep % 256
  {
    var v := f.floatRep;
    assert v == 256 * (v / 256) + v % 256;
  }

  // ----- the length in a format ID

  function FormatID(len: nat, hash1: nat, hash2: nat): (id: seq<byte>)
    ensures |id| == 12
  {
    [2, len / 0x4_0000 % 256] + Enc(true, len / 4 % TWO16, 2) + Enc(true, hash1, 4) + Enc(true, hash2, 4)
  }

  function IdLength(id: seq<byte>): nat {
    4 * (Dec(true, Load(id, 2, 2)) + TWO16 * Byte(id, 1))
  }

  /** The 24 bits kept give the length back exactly when it is below 2^26. */
  lemma IdLengthExact(len: nat, hash1: nat, hash2: nat)
    requires len % 4 == 0
    ensures IdLength(FormatID(len, hash1, hash2)) == len <==> len < TWO26
    ensures IdLength(FormatID(len, hash1, hash2)) == len % TWO26
  {
    hide Has, Enc, Load, Dec;
    var id := FormatID(len, hash1, hash2);
    var a, b, c, e := [2, len / 0x4_0000 % 256], Enc(true, len / 4 % TWO16, 2), Enc(true, hash1, 4), Enc(true, hash2, 4);
    Whole(id);
    HasSplit(id, 0, a + b + c, e);
    HasSplit(id, 0, a + b, c);
    HasSplit(id, 0, a, b);
    TwoBytes(id, 0, 2, len / 0x4_0000 % 256);
    NetBack(id, 2, len / 4 % TWO16);
    var q := len / 4;
    assert len == 4 * q && len / 0x4_0000 == q / TWO16;
    LowBits(q);
  }

  lemma LowBits(q: nat)
    ensures q % TWO16 + TWO16 * (q / TWO16 % 256) == q % 0x100_0000
    ensures 4 * (q % 0x100_0000) == 4 * q % TWO26
  {
    var h := q / TWO16;
    assert q == TWO16 * h + q % TWO16;
    assert h == 256 * (h / 256) + h % 256;
    assert q == 0x100_0000 * (h / 256) + (TWO16 * (h % 256) + q % TWO16);
    Remainder(q, 0x100_0000, h / 256, TWO16 * (h % 256) + q % TWO16);
    Remainder(4 * q, TWO26, h / 256, 4 * (TWO16 * (h % 256) + q % TWO16));
  }

  lemma Remainder(x: nat, k: nat, q: nat, r: nat)
    requires x == k * q + r && r < k
    ensures x % k == r
  {
    var d := x / k;
    assert x == k * d + x % k;
    if d > q { MulMono(k, q + 1, d); }
    if d < q { MulMono(k, d + 1, q); }
  }

  lemma MulMono(k: nat, a: nat, b: nat)
    requires a <= b
    ensures k * a <= k * b
  {
  }
}
