/** The printer and the parser of format descriptions, byte by byte. */
module WireCode {
  import opened Bytes
  import opened ByteOrder
  import opened Wire

  // ----- measuring

  method MeasureRep(f: Form) returns (size: nat)
    ensures size == RepSize(f)
  {
    size := FieldSize * |f.fields| + |f.name| + 1;
    var i := 0;
    while i < |f.fields|
      invariant 0 <= i <= |f.fields|
      invariant size + |Strings(f.fields[i..])| == FieldSize * |f.fields| + |f.name| + 1 + |Strings(f.fields)|
    {
      size := size + |f.fields[i].name| + 1;
      size := size + |f.fields[i].typ| + 1;
      assert f.fields[i..][1..] == f.fields[i + 1..];
      i := i + 1;
    }
    size := size + HeadSize;
    size := Align4(size);
    assert size == InfoAt(f);
    var k := 0;
    assert f.infos[0..] == f.infos;
    while k < |f.infos|
      invariant 0 <= k <= |f.infos| && size % 4 == 0
      invariant size + |Blocks(f.infos[k..])| == InfoAt(f) + |Blocks(f.infos)|
    {
      AlignShift(size, |f.infos[k].block|);
      size := Align4(size + |f.infos[k].block|);
      assert f.infos[k..][1..] == f.infos[k + 1..];
      k := k + 1;
    }
    size := size + (k + 1) * InfoSize;
  }

  // ----- printing

  method PutHead(r: array<byte>, at: nat, big: bool, writer: bool, f: Form, infoAt: nat, size: nat)
    requires at + HeadSize <= r.Length && infoAt == InfoAt(f) && size == RepSize(f)
    modifies r
    ensures Written(old(r[..]), r[..], at, Head(big, writer, f))
  {
    hide Enc, InfoAt, RepSize, Written;
    var head := Enc(true, size % TWO16, 2) + [2, Order(big)]
      + Enc(big, HeadSize + FieldSize * |f.fields|, 4) + Enc(big, |f.fields|, 4) + Enc(big, f.recordLength, 4)
      + [f.pointerSize % 256, HeadSize] + Enc(writer, f.floatRep, 2)
      + Enc(big, infoAt % TWO16, 2) + [f.columnMajor % 256, f.alignment % 256]
      + Enc(true, size / TWO16, 2) + Enc(big, infoAt / TWO16, 2);
    Put(r, at, head);
  }

  /** The first i fields are in the table and their strings, up to cur, behind the name. */
  ghost predicate FieldsUpTo(b: seq<byte>, at: nat, big: bool, f: Form, i: nat, cur: nat) {
    var table, strings := FieldTable(big, f.fields, StringsAt(f)), Strings(f.fields);
    var k := cur - StringsAt(f);
    && i <= |f.fields| && 0 <= k <= |strings|
    && table[FieldSize * i..] == FieldTable(big, f.fields[i..], cur) && strings[k..] == Strings(f.fields[i..])
    && Has(b, at + HeadSize, table[..FieldSize * i]) && Has(b, at + StringsAt(f), strings[..k]) && Has(b, at + NameAt(f), f.name + [0])
  }

  lemma FieldsStart(b: seq<byte>, at: nat, big: bool, f: Form)
    requires at + RepSize(f) <= |b| && Has(b, at + NameAt(f), f.name + [0])
    ensures FieldsUpTo(b, at, big, f, 0, StringsAt(f))
  {
    hide FieldTable, Strings, RepSize;
    Fits(f);
    assert f.fields[0..] == f.fields;
    Nothing(b, at + HeadSize);
    Nothing(b, at + StringsAt(f));
  }

  lemma FieldsStep(b0: seq<byte>, b1: seq<byte>, b2: seq<byte>, at: nat, big: bool, f: Form, i: nat, cur: nat)
    requires FieldsUpTo(b0, at, big, f, i, cur) && i < |f.fields|
    requires Written(b0, b1, at + HeadSize + FieldSize * i, Entry(big, f.fields[i], cur))
    requires Written(b1, b2, at + cur, FieldStrings(f.fields[i]))
    ensures FieldsUpTo(b2, at, big, f, i + 1, cur + |f.fields[i].name| + |f.fields[i].typ| + 2) && b2[..at] == b0[..at]
  {
    hide Has, Written, FieldTable, Strings, Entry, FieldStrings, StringsAt;
    Offsets(f);
    var table, strings, k := FieldTable(big, f.fields, StringsAt(f)), Strings(f.fields), cur - StringsAt(f);
    var entry, text := Entry(big, f.fields[i], cur), FieldStrings(f.fields[i]);
    assert f.fields[i..][1..] == f.fields[i + 1..];
    FieldTableStep(big, f.fields[i..], cur);
    StringsStep(f.fields[i..]);
    Advance(table, table[..FieldSize * i], entry, FieldTable(big, f.fields[i + 1..], cur + |text|));
    Advance(strings, strings[..k], text, Strings(f.fields[i + 1..]));
    assert table[..FieldSize * (i + 1)] == table[..FieldSize * i] + entry;
    assert strings[..k + |text|] == strings[..k] + text;
    HasBound(b0, at + HeadSize, table[..FieldSize * i]);
    PutBoth(b0, b1, b2, at, at + HeadSize, table[..FieldSize * i], entry, at + StringsAt(f), strings[..k], text);
    StillHas(b0, b1, at + HeadSize + FieldSize * i, entry, at + NameAt(f), f.name + [0]);
    StillHas(b1, b2, at + cur, text, at + NameAt(f), f.name + [0]);
  }

  lemma FieldsRoom(b: seq<byte>, at: nat, big: bool, f: Form, i: nat, cur: nat)
    requires FieldsUpTo(b, at, big, f, i, cur) && i < |f.fields|
    ensures cur + |FieldStrings(f.fields[i])| <= StringsAt(f) + |Strings(f.fields)|
  {
    hide Has, FieldTable, StringsAt, FieldStrings;
    StringsStep(f.fields[i..]);
  }

  lemma FieldsEnd(b: seq<byte>, at: nat, big: bool, f: Form, cur: nat)
    requires FieldsUpTo(b, at, big, f, |f.fields|, cur)
    ensures cur == StringsAt(f) + |Strings(f.fields)|
    ensures Has(b, at + HeadSize, FieldTable(big, f.fields, StringsAt(f)))
    ensures Has(b, at + NameAt(f), f.name + [0]) && Has(b, at + StringsAt(f), Strings(f.fields))
  {
    hide Has, StringsAt, FieldTable, Strings;
    var table, strings := FieldTable(big, f.fields, StringsAt(f)), Strings(f.fields);
    assert f.fields[|f.fields|..] == [];
    StringsEnd();
    assert table[..FieldSize * |f.fields|] == table;
    assert strings[cur - StringsAt(f)..] == [];
    assert strings[..cur - StringsAt(f)] == strings;
  }

  /** Field table and strings, filled in side by side. */
  method PutFields(r: array<byte>, at: nat, big: bool, f: Form) returns (cur: nat)
    requires at + RepSize(f) <= r.Length
    modifies r
    ensures cur == StringsAt(f) + |Strings(f.fields)|
    ensures Has(r[..], at + HeadSize, FieldTable(big, f.fields, StringsAt(f)))
    ensures Has(r[..], at + NameAt(f), f.name + [0]) && Has(r[..], at + StringsAt(f), Strings(f.fields))
    ensures r[..at] == old(r[..at])
  {
    hide Has, Written, RepSize, Strings, FieldTable, Entry, FieldStrings, FieldsUpTo;
    Offsets(f);
    Fits(f);
    cur := HeadSize + FieldSize * |f.fields|;
    ghost var was := r[..];
    Put(r, at + cur, f.name + [0]);
    Prefix(was, r[..], at + cur, f.name + [0], at);
    Put1(was, r[..], at + cur, f.name + [0]);
    cur := cur + |f.name| + 1;
    FieldsStart(r[..], at, big, f);
    var i := 0;
    while i < |f.fields|
      invariant 0 <= i <= |f.fields| && cur >= StringsAt(f) && FieldsUpTo(r[..], at, big, f, i, cur)
      invariant r[..at] == was[..at]
    {
      var fd := f.fields[i];
      FieldsRoom(r[..], at, big, f, i, cur);
      ghost var b0 := r[..];
      Put(r, at + HeadSize + FieldSize * i, Entry(big, fd, cur));
      ghost var b1 := r[..];
      Put(r, at + cur, FieldStrings(fd));
      FieldsStep(b0, b1, r[..], at, big, f, i, cur);
      cur := cur + |fd.name| + 1;
      cur := cur + |fd.typ| + 1;
      i := i + 1;
    }
    FieldsEnd(r[..], at, big, f, cur);
  }

  lemma Fits(f: Form)
    ensures StringsAt(f) + |Strings(f.fields)| <= RepSize(f) && |FieldTable(true, f.fields, 0)| == FieldSize * |f.fields|
  {
  }

  lemma StringsEnd()
    ensures Strings([]) == [] && FieldTable(true, [], 0) == []
  {
  }

  lemma FieldTableStep(big: bool, fields: seq<Field>, pos: nat)
    requires fields != []
    ensures FieldTable(big, fields, pos) == Entry(big, fields[0], pos) + FieldTable(big, fields[1..], pos + |FieldStrings(fields[0])|)
  {
  }

  lemma StringsStep(fields: seq<Field>)
    requires fields != []
    ensures Strings(fields) == FieldStrings(fields[0]) + Strings(fields[1..])
    ensures |FieldStrings(fields[0])| == |fields[0].name| + |fields[0].typ| + 2
  {
  }

  /** Two areas, each growing at its end, the first ending before the second begins. */
  lemma PutBoth(b0: seq<byte>, b1: seq<byte>, b2: seq<byte>, lo: nat, p: nat, t: seq<byte>, x: seq<byte>, q: nat, u: seq<byte>, y: seq<byte>)
    requires Has(b0, p, t) && Has(b0, q, u) && Written(b0, b1, p + |t|, x) && Written(b1, b2, q + |u|, y)
    requires lo <= p && p + |t| + |x| <= q && lo <= |b0|
    ensures Has(b2, p, t + x) && Has(b2, q, u + y) && b2[..lo] == b0[..lo]
  {
    hide Has, Written;
    StillHas(b0, b1, p + |t|, x, p, t);
    StillHas(b0, b1, p + |t|, x, q, u);
    Put1(b0, b1, p + |t|, x);
    HasJoin(b1, p, t, x);
    StillHas(b1, b2, q + |u|, y, p, t + x);
    StillHas(b1, b2, q + |u|, y, q, u);
    Put1(b1, b2, q + |u|, y);
    HasJoin(b2, q, u, y);
    Keep(b0, b1, b2, p + |t|, x, q + |u|, y, lo);
  }

  // ----- optional info

  /** The length field as the printer reads it back to move on: already swapped in a
      byte-reversed format. */
  function Stored(reversed: bool, n: nat): int {
    if !reversed then n
    else
      var v := Dec(true, ToLE(n, 4));
      if v < TWO31 then v else v - TWO32
  }

  /** Every length reads the same from either end, as 0 does. */
  predicate LengthsKept(infos: seq<Info>) {
    forall i :: 0 <= i < |infos| ==> Stored(true, |infos[i].block|) == |infos[i].block|
  }

  /** The first i infos are in their table and their blocks, up to cur, behind it. */
  ghost predicate InfosUpTo(b: seq<byte>, at: nat, big: bool, f: Form, i: nat, cur: nat) {
    var table, blocks := InfoTable(big, f.infos, BlocksAt(f)), Blocks(f.infos);
    var k := cur - BlocksAt(f);
    && i <= |f.infos| && 0 <= k <= |blocks| && cur % 4 == 0
    && table[InfoSize * i..] == InfoTable(big, f.infos[i..], cur) && blocks[k..] == Blocks(f.infos[i..])
    && Has(b, at + InfoAt(f), table[..InfoSize * i]) && Has(b, at + BlocksAt(f), blocks[..k])
    && Has(b, at + InfoAt(f) + InfoSize * |f.infos|, Zeros(InfoSize))
  }

  lemma InfosStart(b: seq<byte>, at: nat, big: bool, f: Form)
    requires at + RepSize(f) <= |b| && Has(b, at + InfoAt(f) + InfoSize * |f.infos|, Zeros(InfoSize))
    ensures InfosUpTo(b, at, big, f, 0, BlocksAt(f))
  {
    hide InfoTable, Blocks, RepSize, Zeros;
    InfoPlaces(f);
    assert f.infos[0..] == f.infos;
    Nothing(b, at + InfoAt(f));
    Nothing(b, at + BlocksAt(f));
  }

  lemma InfosStep(b0: seq<byte>, b1: seq<byte>, b2: seq<byte>, at: nat, big: bool, f: Form, i: nat, cur: nat)
    requires InfosUpTo(b0, at, big, f, i, cur) && i < |f.infos|
    requires Written(b0, b1, at + InfoAt(f) + InfoSize * i, InfoEntry(big, f.infos[i], cur))
    requires Written(b1, b2, at + cur, Padded(f.infos[i].block))
    ensures InfosUpTo(b2, at, big, f, i + 1, Align4(cur + |f.infos[i].block|)) && b2[..at + InfoAt(f)] == b0[..at + InfoAt(f)]
  {
    hide Has, Written, InfoTable, Blocks, InfoEntry, Padded, InfoAt, Zeros, Align4, BlocksAt, RepSize;
    InfoPlaces(f);
    var table, blocks, k := InfoTable(big, f.infos, BlocksAt(f)), Blocks(f.infos), cur - BlocksAt(f);
    var entry, text := InfoEntry(big, f.infos[i], cur), Padded(f.infos[i].block);
    assert f.infos[i..][1..] == f.infos[i + 1..];
    InfoSteps(big, f.infos[i..], cur);
    Advance(table, table[..InfoSize * i], entry, InfoTable(big, f.infos[i + 1..], cur + |text|));
    Advance(blocks, blocks[..k], text, Blocks(f.infos[i + 1..]));
    assert table[..InfoSize * (i + 1)] == table[..InfoSize * i] + entry;
    assert blocks[..k + |text|] == blocks[..k] + text;
    var endAt := at + InfoAt(f) + InfoSize * |f.infos|;
    HasBound(b0, at + InfoAt(f), table[..InfoSize * i]);
    PutBoth(b0, b1, b2, at + InfoAt(f), at + InfoAt(f), table[..InfoSize * i], entry, at + BlocksAt(f), blocks[..k], text);
    StillHas(b0, b1, at + InfoAt(f) + InfoSize * i, entry, endAt, Zeros(InfoSize));
    StillHas(b1, b2, at + cur, text, endAt, Zeros(InfoSize));
  }

  lemma InfosRoom(b: seq<byte>, at: nat, big: bool, f: Form, i: nat, cur: nat)
    requires InfosUpTo(b, at, big, f, i, cur) && i < |f.infos|
    ensures cur + |Padded(f.infos[i].block)| <= RepSize(f)
  {
    hide Has, InfoTable, BlocksAt, Padded, InfoAt, RepSize;
    InfoPlaces(f);
    InfoSteps(big, f.infos[i..], cur);
  }

  lemma InfosFinish(b: seq<byte>, at: nat, big: bool, f: Form, cur: nat)
    requires InfosUpTo(b, at, big, f, |f.infos|, cur)
    ensures cur == RepSize(f)
    ensures Has(b, at + InfoAt(f), InfoTable(big, f.infos, BlocksAt(f))) && Has(b, at + BlocksAt(f), Blocks(f.infos))
  {
    hide Has, InfoTable, Blocks, InfoAt, BlocksAt, RepSize, Zeros;
    InfoPlaces(f);
    var table, blocks := InfoTable(big, f.infos, BlocksAt(f)), Blocks(f.infos);
    var n := InfoSize * |f.infos|;
    assert f.infos[|f.infos|..] == [];
    InfosEnd(big, cur);
    assert table == table[..n] + Zeros(InfoSize);
    HasJoin(b, at + InfoAt(f), table[..n], Zeros(InfoSize));
    assert blocks[..cur - BlocksAt(f)] == blocks;
  }

  /** The entries of the table of optional info and its blocks, filled in side by side; the
      entry that ends the table is there already. */
  method PutInfoEntries(r: array<byte>, at: nat, big: bool, reversed: bool, f: Form) returns (cur: nat)
    requires at + RepSize(f) <= r.Length && (reversed ==> LengthsKept(f.infos))
    requires Has(r[..], at + InfoAt(f) + InfoSize * |f.infos|, Zeros(InfoSize))
    modifies r
    ensures cur == RepSize(f)
    ensures Has(r[..], at + InfoAt(f), InfoTable(big, f.infos, BlocksAt(f))) && Has(r[..], at + BlocksAt(f), Blocks(f.infos))
    ensures r[..at + InfoAt(f)] == old(r[..at + InfoAt(f)])
  {
    hide Has, Written, RepSize, InfoTable, Blocks, InfoEntry, Padded, Zeros, Stored, LengthsKept, Align4, InfosUpTo, InfoAt, BlocksAt;
    InfoPlaces(f);
    ghost var was := r[..];
    var infoAt := InfoAt(f);
    cur := infoAt + InfoSize * (|f.infos| + 1);
    InfosStart(r[..], at, big, f);
    var i := 0;
    while i < |f.infos|
      invariant 0 <= i <= |f.infos| && InfosUpTo(r[..], at, big, f, i, cur)
      invariant r[..at + infoAt] == was[..at + infoAt]
    {
      var info := f.infos[i];
      InfosRoom(r[..], at, big, f, i, cur);
      StoredLength(reversed, f.infos, i);
      ghost var b0 := r[..];
      Put(r, at + infoAt + InfoSize * i, InfoEntry(big, info, cur));
      ghost var b1 := r[..];
      Put(r, at + cur, Padded(info.block));
      InfosStep(b0, b1, r[..], at, big, f, i, cur);
      cur := Align4(cur + Stored(reversed, |info.block|));
      i := i + 1;
    }
    InfosFinish(r[..], at, big, f, cur);
  }

  /** Align, then the optional info. */
  method PutInfos(r: array<byte>, at: nat, big: bool, reversed: bool, f: Form, start: nat) returns (infoAt: nat, cur: nat)
    requires start == StringsAt(f) + |Strings(f.fields)| && at + RepSize(f) <= r.Length
    requires reversed ==> LengthsKept(f.infos)
    modifies r
    ensures infoAt == InfoAt(f) && cur == RepSize(f)
    ensures Has(r[..], at + start, Zeros(InfoAt(f) - start))
    ensures Has(r[..], at + InfoAt(f), InfoTable(big, f.infos, BlocksAt(f))) && Has(r[..], at + BlocksAt(f), Blocks(f.infos))
    ensures r[..at + start] == old(r[..at + start])
  {
    hide Has, Written, RepSize, InfoAt, BlocksAt, Strings, InfoTable, Blocks, Zeros, LengthsKept, Align4;
    InfoPlaces(f);
    infoAt := Align4(start);
    ghost var pad, a0 := Zeros(infoAt - start), r[..];
    Put(r, at + start, Zeros(infoAt - start));
    ghost var a1 := r[..];
    Put1(a0, a1, at + start, pad);
    Prefix(a0, a1, at + start, pad, at + start);
    var endAt := at + infoAt + InfoSize * |f.infos|;
    Put(r, endAt, Zeros(InfoSize));
    ghost var a2 := r[..];
    StillHas(a1, a2, endAt, Zeros(InfoSize), at + start, pad);
    Put1(a1, a2, endAt, Zeros(InfoSize));
    Prefix(a1, a2, endAt, Zeros(InfoSize), at + start);
    cur := PutInfoEntries(r, at, big, reversed, f);
    ghost var a3 := r[..];
    SameHas(a2, a3, at + infoAt, at + start, pad);
    assert a3[..at + start] == a3[..at + infoAt][..at + start] == a2[..at + infoAt][..at + start] == a2[..at + start];
  }

  lemma InfoPlaces(f: Form)
    ensures InfoAt(f) == Align4(StringsAt(f) + |Strings(f.fields)|) && BlocksAt(f) == InfoAt(f) + InfoSize * (|f.infos| + 1)
    ensures RepSize(f) == BlocksAt(f) + |Blocks(f.infos)|
  {
  }

  lemma InfosEnd(big: bool, pos: nat)
    ensures InfoTable(big, [], pos) == Zeros(InfoSize) && Blocks([]) == []
  {
  }

  lemma InfoSteps(big: bool, infos: seq<Info>, pos: nat)
    requires infos != [] && pos % 4 == 0
    ensures var next := pos + |Padded(infos[0].block)|;
      && next == Align4(pos + |infos[0].block|) && next % 4 == 0
      && InfoTable(big, infos, pos) == InfoEntry(big, infos[0], pos) + InfoTable(big, infos[1..], next)
      && Blocks(infos) == Padded(infos[0].block) + Blocks(infos[1..])
  {
    AlignShift(pos, |infos[0].block|);
  }

  lemma StoredLength(reversed: bool, infos: seq<Info>, i: nat)
    requires i < |infos| && (reversed ==> LengthsKept(infos))
    ensures Stored(reversed, |infos[i].block|) == |infos[i].block|
  {
  }

  /** The parts of a printed format, one after the other. */
  lemma AssembleSub(b1: seq<byte>, b2: seq<byte>, b3: seq<byte>, at: nat, big: bool, writer: bool, f: Form)
    requires Has(b1, at + HeadSize, FieldTable(big, f.fields, StringsAt(f)))
    requires Has(b1, at + NameAt(f), f.name + [0]) && Has(b1, at + StringsAt(f), Strings(f.fields))
    requires var start := StringsAt(f) + |Strings(f.fields)|;
      && at + start <= |b1| == |b2| && b2[..at + start] == b1[..at + start]
      && Has(b2, at + start, Zeros(InfoAt(f) - start))
    requires Has(b2, at + InfoAt(f), InfoTable(big, f.infos, BlocksAt(f))) && Has(b2, at + BlocksAt(f), Blocks(f.infos))
    requires Written(b2, b3, at, Head(big, writer, f))
    ensures Has(b3, at, SubRep(big, writer, f))
  {
    hide Has, Written, InfoAt, BlocksAt, StringsAt, NameAt, Strings, FieldTable, InfoTable, Blocks, Head, Zeros, RepSize, SubRep;
    Offsets(f);
    var head, table, name, strings := Head(big, writer, f), FieldTable(big, f.fields, StringsAt(f)), f.name + [0], Strings(f.fields);
    var start := StringsAt(f) + |strings|;
    var pad, infos, blocks := Zeros(InfoAt(f) - start), InfoTable(big, f.infos, BlocksAt(f)), Blocks(f.infos);
    CarryOver(b1, b2, b3, at + start, at, head, at + HeadSize, table);
    CarryOver(b1, b2, b3, at + start, at, head, at + NameAt(f), name);
    CarryOver(b1, b2, b3, at + start, at, head, at + StringsAt(f), strings);
    StillHas(b2, b3, at, head, at + start, pad);
    StillHas(b2, b3, at, head, at + InfoAt(f), infos);
    StillHas(b2, b3, at, head, at + BlocksAt(f), blocks);
    Put1(b2, b3, at, head);
    JoinSeven(b3, at, head, table, name, strings, pad, infos, blocks);
    SubRepIs(big, writer, f);
  }

  lemma SubRepIs(big: bool, writer: bool, f: Form)
    ensures SubRep(big, writer, f) ==
      Head(big, writer, f) + FieldTable(big, f.fields, StringsAt(f)) + (f.name + [0]) + Strings(f.fields)
      + Zeros(InfoAt(f) - StringsAt(f) - |Strings(f.fields)|) + InfoTable(big, f.infos, BlocksAt(f)) + Blocks(f.infos)
  {
    hide InfoTable, Blocks, FieldTable, Strings, Head, Zeros, RepSize;
  }

  lemma JoinSeven(b: seq<byte>, p: nat, s1: seq<byte>, s2: seq<byte>, s3: seq<byte>, s4: seq<byte>, s5: seq<byte>, s6: seq<byte>, s7: seq<byte>)
    requires Has(b, p, s1) && Has(b, p + |s1|, s2) && Has(b, p + |s1| + |s2|, s3) && Has(b, p + |s1| + |s2| + |s3|, s4)
    requires Has(b, p + |s1| + |s2| + |s3| + |s4|, s5) && Has(b, p + |s1| + |s2| + |s3| + |s4| + |s5|, s6)
    requires Has(b, p + |s1| + |s2| + |s3| + |s4| + |s5| + |s6|, s7)
    ensures Has(b, p, s1 + s2 + s3 + s4 + s5 + s6 + s7)
  {
    hide Has;
    HasJoin(b, p, s1, s2);
    HasJoin(b, p, s1 + s2, s3);
    HasJoin(b, p, s1 + s2 + s3, s4);
    HasJoin(b, p, s1 + s2 + s3 + s4, s5);
    HasJoin(b, p, s1 + s2 + s3 + s4 + s5, s6);
    HasJoin(b, p, s1 + s2 + s3 + s4 + s5 + s6, s7);
  }

  /** Add the printed form of one format to the `size` bytes of rep. */
  method AddSubformatRep(f: Form, reversed: bool, writer: bool, rep: array<byte>, size: nat) returns (r: array<byte>, newSize: nat)
    requires size <= rep.Length && (reversed ==> LengthsKept(f.infos))
    ensures fresh(r) && newSize <= r.Length && newSize == size + RepSize(f)
    ensures r[..newSize] == rep[..size] + SubRep(writer != reversed, writer, f)
  {
    hide Has, Written, RepSize, InfoAt, BlocksAt, StringsAt, NameAt, Strings, FieldTable, InfoTable, Blocks, Head, Zeros, LengthsKept, Align4, SubRep;
    var repSize := MeasureRep(f);
    r := new byte[size + repSize + 4](_ => 0);
    forall i | 0 <= i < size {
      r[i] := rep[i];
    }
    ghost var b0 := r[..];
    Offsets(f);
    InfoPlaces(f);
    Fits(f);
    var big := writer != reversed;
    var start := PutFields(r, size, big, f);
    ghost var b1 := r[..];
    var infoAt, cur := PutInfos(r, size, big, reversed, f, start);
    ghost var b2 := r[..];
    PutHead(r, size, big, writer, f, infoAt, repSize);
    ghost var b3 := r[..];
    newSize := cur + size;
    AssembleSub(b1, b2, b3, size, big, writer, f);
    Prefix(b2, b3, size, Head(big, writer, f), size);
    assert b2[..size] == b2[..size + start][..size] == b1[..size + start][..size] == b1[..size];
    assert r[..size] == b0[..size] == rep[..size];
    Whole2(b3, size, SubRep(big, writer, f));
  }

  /** Add the subformats, in order. */
  method AddSubformats(subs: seq<Form>, reversed: bool, writer: bool, rep: array<byte>, start: nat) returns (r: array<byte>, size: nat)
    requires start <= rep.Length && (reversed ==> forall i :: 0 <= i < |subs| ==> LengthsKept(subs[i].infos))
    ensures size <= r.Length && r[..size] == rep[..start] + SubReps(writer != reversed, writer, subs)
    ensures fresh(r) || r == rep
  {
    hide SubRep, SubReps, RepSize, LengthsKept;
    var big := writer != reversed;
    r, size := rep, start;
    ghost var all := SubReps(big, writer, subs);
    ghost var done: seq<byte> := [];
    var i := 0;
    assert subs[0..] == subs && all[0..] == all;
    while i < |subs|
      invariant 0 <= i <= |subs| && size <= r.Length && (fresh(r) || r == rep)
      invariant done <= all && all[|done|..] == SubReps(big, writer, subs[i..])
      invariant r[..size] == rep[..start] + done
    {
      SubRepsStep(big, writer, subs[i..]);
      assert subs[i..][1..] == subs[i + 1..];
      Advance(all, done, SubRep(big, writer, subs[i]), SubReps(big, writer, subs[i + 1..]));
      r, size := AddSubformatRep(subs[i], reversed, writer, r, size);
      done := done + SubRep(big, writer, subs[i]);
      i := i + 1;
    }
    SubRepsEnd(big, writer);
    assert subs[i..] == [];
    Complete(done, all);
  }

  /** Print a format and its subformats; null when there are 100 subformats or more. */
  method BuildServerFormatRep(d: Description, reversed: bool, writer: bool) returns (rep: array?<byte>, size: nat)
    requires reversed ==> LengthsKept(d.top.infos) && forall i :: 0 <= i < |d.subs| ==> LengthsKept(d.subs[i].infos)
    ensures rep == null <==> |d.subs| >= 100
    ensures rep != null ==> size <= rep.Length && rep[..size] == FormatRep(writer != reversed, writer, d)
  {
    hide SubRep, SubReps, Written, Has, RepSize, SizeSum, LengthsKept, Enc, FormatRep;
    if |d.subs| >= 100 {
      return null, 0;
    }
    var big := writer != reversed;
    var r := new byte[8](_ => 0);
    r, size := AddSubformatRep(d.top, reversed, writer, r, 8);
    r, size := AddSubformats(d.subs, reversed, writer, r, size);
    ghost var all := SubRep(big, writer, d.top) + SubReps(big, writer, d.subs);
    SizeIs(big, writer, d);
    ghost var before := r[..];
    assert before[8..size] == r[..size][8..] == all;
    var head := Enc(true, size % TWO16, 2) + [Order(big), 2] + [|d.subs| % 256, 0] + Enc(true, size / TWO16 % TWO16, 2);
    Put(r, 0, head);
    KeepAfter(before, r[..], head, size);
    assert r[..size] == r[..8] + r[8..size];
    rep := r;
  }

  lemma KeepAfter(before: seq<byte>, after: seq<byte>, head: seq<byte>, n: nat)
    requires Written(before, after, 0, head) && |head| <= n <= |before|
    ensures after[..|head|] == head && after[|head|..n] == before[|head|..n]
  {
  }

  lemma SizeIs(big: bool, writer: bool, d: Description)
    ensures DescriptionSize(d) == 8 + |SubRep(big, writer, d.top) + SubReps(big, writer, d.subs)|
    ensures FormatRep(big, writer, d) == TopHead(big, DescriptionSize(d), |d.subs|) + (SubRep(big, writer, d.top) + SubReps(big, writer, d.subs))
  {
    hide RepSize, SizeSum, SubRep, SubReps, TopHead;
  }

  lemma SubRepsStep(big: bool, writer: bool, fs: seq<Form>)
    requires fs != []
    ensures SubReps(big, writer, fs) == SubRep(big, writer, fs[0]) + SubReps(big, writer, fs[1..])
  {
  }

  lemma SubRepsEnd(big: bool, writer: bool)
    ensures SubReps(big, writer, []) == []
  {
  }

  // ----- parsing

  method ReadFields(b: seq<byte>, at: nat, p: nat, n: nat, host: bool, swap: bool) returns (fields: seq<Field>)
    ensures fields == ParseFields(b, at, p, n, host, swap)
  {
    hide ReadInt, CString;
    fields := [];
    var i := 0;
    while i < n
      invariant 0 <= i <= n && fields + ParseFields(b, at, p + FieldSize * i, n - i, host, swap) == ParseFields(b, at, p, n, host, swap)
    {
      var q := p + FieldSize * i;
      var nameAt := ReadInt(b, q, 4, host, swap);
      var typeAt := ReadInt(b, q + 4, 4, host, swap);
      var f := Field(CString(b, at + nameAt), CString(b, at + typeAt), ReadInt(b, q + 8, 4, host, swap), ReadInt(b, q + 12, 4, host, swap));
      JoinFields(fields, f, ParseFields(b, at, q + FieldSize, n - i - 1, host, swap));
      fields := fields + [f];
      i := i + 1;
    }
  }

  lemma JoinFields(x: seq<Field>, f: Field, y: seq<Field>)
    ensures x + ([f] + y) == (x + [f]) + y
  {
  }

  method ReadInfos(b: seq<byte>, at: nat, start: nat, host: bool, swap: bool) returns (infos: seq<Info>)
    ensures infos == ParseInfos(b, at, start, host, swap)
  {
    hide ReadInt, Load, Zeros;
    infos := [];
    var p := start;
    while p < |b| && Load(b, p, 4) != Zeros(4)
      invariant infos + ParseInfos(b, at, p, host, swap) == ParseInfos(b, at, start, host, swap)
      decreases |b| - p
    {
      var len, off := ReadInt(b, p + 4, 4, host, swap), ReadInt(b, p + 8, 4, host, swap);
      var i := Info(ReadInt(b, p, 4, host, swap), Load(b, at + off, len));
      assert infos + ([i] + ParseInfos(b, at, p + InfoSize, host, swap)) == infos + [i] + ParseInfos(b, at, p + InfoSize, host, swap);
      infos := infos + [i];
      p := p + InfoSize;
    }
  }

  method ExpandSubformat(b: seq<byte>, at: nat, host: bool) returns (f: Form)
    ensures f == ParseSub(b, at, host)
  {
    hide ReadInt, CString, Byte, ParseFields, ParseInfos;
    var swap := (Byte(b, at + 3) % 2 == 1) != host;
    var nameAt, count := ReadInt(b, at + 4, 4, host, swap), ReadInt(b, at + 8, 4, host, swap);
    var float := ReadInt(b, at + 18, 2, host, swap);
    if float == 0 {
      float := if Byte(b, at + 3) == 1 then 1 else 2;
    }
    var fields := ReadFields(b, at, at + Byte(b, at + 17), count, host, swap);
    var offset := ReadInt(b, at + 20, 2, host, swap);
    offset := offset + TWO16 * ReadInt(b, at + 26, 2, host, swap);
    var infos := [];
    if offset != 0 {
      infos := ReadInfos(b, at, at + offset, host, swap);
    }
    f := Form(CString(b, at + nameAt), fields, ReadInt(b, at + 12, 4, host, swap), Byte(b, at + 16), float,
              Byte(b, at + 22), Byte(b, at + 23), infos);
  }

  method ExpandFormat(b: seq<byte>, host: bool) returns (d: Description)
    ensures d == ParseFormat(b, host)
  {
    hide ParseSub, RepLength, Byte;
    var count := Byte(b, 4);
    var top := ExpandSubformat(b, 8, host);
    var subs: seq<Form> := [];
    var at: nat, i: nat := 8, 0;
    while i < count
      invariant 0 <= i <= count
      invariant subs + ParseSubs(b, at + RepLength(b, at), count - i, host) == ParseSubs(b, 8 + RepLength(b, 8), count, host)
    {
      at := at + RepLength(b, at);
      var f := ExpandSubformat(b, at, host);
      assert subs + ([f] + ParseSubs(b, at + RepLength(b, at), count - i - 1, host)) == subs + [f] + ParseSubs(b, at + RepLength(b, at), count - i - 1, host);
      subs := subs + [f];
      i := i + 1;
    }
    d := Description(top, subs);
  }

  lemma FewSubformats(d: Description)
    requires ValidDescription(d)
    ensures |d.subs| < 100
  {
  }

  /** Print on one host, parse on another. */
  method PrintAndParse(d: Description, writer: bool, reader: bool) returns (e: Description, size: nat)
    requires ValidDescription(d) && FloatsKnown(d)
    ensures e == d && size == DescriptionSize(d) && size % 4 == 0
  {
    hide FormatRep, ParseFormat, ValidDescription, FloatsKnown, DescriptionSize, LengthsKept;
    FewSubformats(d);
    var rep, n := BuildServerFormatRep(d, false, writer);
    WireRoundTrip(d, writer, reader);
    e := ExpandFormat(rep[..n], reader);
    size := n;
  }

  // ----- byte-reversed formats with optional info

  /** The next multiple of 4, of a cursor that may have moved back. */
  function Up4(x: int): int {
    x + -x % 4
  }

  /** Where the printer's cursor ends up after the optional info. */
  function Cursor(reversed: bool, infos: seq<Info>, cur: int): int {
    if infos == [] then cur
    else Cursor(reversed, infos[1..], Up4(cur + Stored(reversed, |infos[0].block|)))
  }

  /** The lengths as the cursor sees them, each rounded up, together. */
  function Moved(reversed: bool, infos: seq<Info>): int {
    if infos == [] then 0 else Up4(Stored(reversed, |infos[0].block|)) + Moved(reversed, infos[1..])
  }

  lemma UpShift(cur: int, n: int)
    requires cur % 4 == 0
    ensures Up4(cur + n) == cur + Up4(n) && Up4(n) % 4 == 0 && n <= Up4(n) < n + 4
  {
    assert -(cur + n) % 4 == -n % 4;
  }

  lemma {:induction false} CursorMoves(reversed: bool, infos: seq<Info>, cur: int)
    requires cur % 4 == 0
    ensures Cursor(reversed, infos, cur) == cur + Moved(reversed, infos)
    decreases |infos|
  {
    hide Stored, Up4;
    if infos != [] {
      var n := Stored(reversed, |infos[0].block|);
      UpShift(cur, n);
      CursorMoves(reversed, infos[1..], Up4(cur + n));
    }
  }

  /** What a length of four bytes becomes when its bytes are swapped and it is read as an int. */
  lemma StoredIs(b0: byte, b1: byte, b2: byte, b3: byte)
    ensures var v := 0x100_0000 * b0 + 0x1_0000 * b1 + 0x100 * b2 + b3;
      Stored(true, b0 + 0x100 * b1 + 0x1_0000 * b2 + 0x100_0000 * b3) == if v < TWO31 then v else v - TWO32
  {
    hide ToLE, FromLE, Reverse;
    FourBytes(b0, b1, b2, b3);
    ReverseFour(b0, b1, b2, b3);
    FromFour(b3, b2, b1, b0);
  }

  lemma FourBytes(b0: byte, b1: byte, b2: byte, b3: byte)
    ensures ToLE(b0 + 0x100 * b1 + 0x1_0000 * b2 + 0x100_0000 * b3, 4) == [b0, b1, b2, b3]
  {
    var n3: nat := b3;
    var n2: nat := b2 + 0x100 * n3;
    var n1: nat := b1 + 0x100 * n2;
    var n0: nat := b0 + 0x100 * n1;
    assert ToLE(n3, 1) == [b3] + ToLE(0, 0);
    assert ToLE(n2, 2) == [b2] + ToLE(n3, 1);
    assert ToLE(n1, 3) == [b1] + ToLE(n2, 2);
    assert ToLE(n0, 4) == [b0] + ToLE(n1, 3);
  }

  lemma ReverseFour(b0: byte, b1: byte, b2: byte, b3: byte)
    ensures Reverse([b0, b1, b2, b3]) == [b3, b2, b1, b0]
  {
    assert [b0, b1, b2, b3][1..] == [b1, b2, b3] && [b1, b2, b3][1..] == [b2, b3] && [b2, b3][1..] == [b3] && [b3][1..] == [];
    assert Reverse([b3]) == [b3];
    assert Reverse([b2, b3]) == [b3, b2];
    assert Reverse([b1, b2, b3]) == [b3, b2, b1];
  }

  lemma FromFour(b0: byte, b1: byte, b2: byte, b3: byte)
    ensures FromLE([b0, b1, b2, b3]) == b0 + 0x100 * b1 + 0x1_0000 * b2 + 0x100_0000 * b3
  {
    assert [b0, b1, b2, b3][1..] == [b1, b2, b3] && [b1, b2, b3][1..] == [b2, b3] && [b2, b3][1..] == [b3] && [b3][1..] == [];
    assert FromLE([b3]) == b3;
    assert FromLE([b2, b3]) == b2 + 0x100 * b3;
    assert FromLE([b1, b2, b3]) == b1 + 0x100 * b2 + 0x1_0000 * b3;
  }

  /** The cursor of a byte-reversed format ends where the size says, so that the assertion
      after the loop holds, if and only if the rounded lengths with their bytes swapped add up to
      the rounded lengths. */
  lemma ReversedCursor(infos: seq<Info>, cur: nat)
    requires cur % 4 == 0
    ensures Cursor(true, infos, cur) == Cursor(false, infos, cur) <==> Moved(true, infos) == Moved(false, infos)
  {
    hide Moved, Cursor;
    CursorMoves(true, infos, cur);
    CursorMoves(false, infos, cur);
  }

  lemma {:induction false} KeptMoves(infos: seq<Info>)
    requires LengthsKept(infos)
    ensures Moved(true, infos) == Moved(false, infos)
    decreases |infos|
  {
    hide Up4;
    if infos != [] {
      assert Stored(true, |infos[0].block|) == |infos[0].block|;
      assert LengthsKept(infos[1..]) by { assert forall i :: 0 <= i < |infos| - 1 ==> infos[1..][i] == infos[i + 1]; }
      KeptMoves(infos[1..]);
    }
  }

  predicate AllEmpty(infos: seq<Info>) {
    forall i :: 0 <= i < |infos| ==> infos[i].block == []
  }

  lemma UpShort(n: nat)
    ensures Up4(0x100_0000 * n) == 0x100_0000 * n && Up4(n) <= 0x100_0000 * n
    ensures Up4(n) == 0x100_0000 * n <==> n == 0
  {
    UpShift(0x100_0000 * n, 0) by { assert 0x100_0000 * n == 4 * (0x40_0000 * n); }
    UpShift(0, n);
  }

  /** With blocks shorter than 128 bytes, if and only if all are empty. */
  lemma {:induction false} ShortBlocks(infos: seq<Info>)
    requires forall i :: 0 <= i < |infos| ==> |infos[i].block| < 128
    ensures Moved(true, infos) >= Moved(false, infos)
    ensures Moved(true, infos) == Moved(false, infos) <==> AllEmpty(infos)
    decreases |infos|
  {
    hide Stored, Up4;
    if infos != [] {
      var n := |infos[0].block|;
      StoredIs(n, 0, 0, 0);
      StoredPlain(n);
      UpShort(n);
      assert forall i :: 0 <= i < |infos| - 1 ==> infos[1..][i] == infos[i + 1];
      ShortBlocks(infos[1..]);
      assert AllEmpty(infos) <==> n == 0 && AllEmpty(infos[1..]);
    }
  }

  lemma StoredPlain(n: nat)
    ensures Stored(false, n) == n
  {
  }
}
