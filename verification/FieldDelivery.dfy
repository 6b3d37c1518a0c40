/** The same, field by field: what the receiver finds where the sender had a string, an array of
    strings, a record inside the record, a counted array, a pointer to a record, or plain data. */
module FieldDelivery {
  import opened Bytes
  import opened Formats
  import opened ObjectGraph
  import opened EncodeSpec
  import opened EncodeFrame
  import opened EncodeReady
  import opened EncodeMeaning
  import opened DecodeSpec
  import opened RoundTrip
  import P = Places
  import opened Delivery

  // ----- numbers in memory, least significant byte first

  function Two(b0: int, b1: int): int {
    b0 + 0x100 * b1
  }

  function Four(b0: int, b1: int, b2: int, b3: int): int {
    b0 + 0x100 * b1 + 0x1_0000 * b2 + 0x100_0000 * b3
  }

  /** The w bytes at a hold the number v. */
  ghost predicate Holds(mem: seq<byte>, a: nat, w: nat, v: nat) {
    && a + w <= |mem|
    && (w == 1 ==> v == mem[a])
    && (w == 2 ==> v == Two(mem[a], mem[a + 1]))
    && (w == 4 ==> v == Four(mem[a], mem[a + 1], mem[a + 2], mem[a + 3]))
    && (w == 8 ==> v == Four(mem[a], mem[a + 1], mem[a + 2], mem[a + 3]) + 0x1_0000_0000 * Four(mem[a + 4], mem[a + 5], mem[a + 6], mem[a + 7]))
  }

  lemma TwoBytes(s: seq<byte>)
    requires |s| == 2
    ensures FromLE(s) == Two(s[0], s[1])
  {
    assert s[1..][0] == s[1] && s[1..][1..] == [];
  }

  lemma FourBytes(s: seq<byte>)
    requires |s| == 4
    ensures FromLE(s) == Four(s[0], s[1], s[2], s[3])
  {
    TwoBytes(s[2..]);
    assert s[1..][1..] == s[2..] && s[1..][0] == s[1];
    assert s[2..][0] == s[2] && s[2..][1] == s[3];
  }

  lemma EightBytes(s: seq<byte>)
    requires |s| == 8
    ensures FromLE(s) == Four(s[0], s[1], s[2], s[3]) + 0x1_0000_0000 * Four(s[4], s[5], s[6], s[7])
  {
    FourBytes(s[4..]);
    assert s[1..][1..] == s[2..] && s[2..][1..] == s[3..] && s[3..][1..] == s[4..];
    assert s[1..][0] == s[1] && s[2..][0] == s[2] && s[3..][0] == s[3];
    assert s[4..][0] == s[4] && s[4..][1] == s[5] && s[4..][2] == s[6] && s[4..][3] == s[7];
    assert FromLE(s[3..]) == s[3] as int + 0x100 * FromLE(s[4..]);
    assert FromLE(s[2..]) == s[2] as int + 0x100 * FromLE(s[3..]);
    assert FromLE(s[1..]) == s[1] as int + 0x100 * FromLE(s[2..]);
  }

  /** A control field of 1, 2, 4 or 8 bytes is read as the number they hold. */
  lemma CountIs(mem: seq<byte>, a: nat, w: nat, v: nat)
    requires w in {1, 2, 4, 8} && Holds(mem, a, w, v)
    ensures ReadCount(mem, a, w) == v
  {
    var s := Load(mem, a, w);
    hide FromLE, Load;
    assert s == mem[a..a + w];
    if w == 1 {
      OneByte(s);
    } else if w == 2 {
      TwoBytes(s);
    } else if w == 4 {
      FourBytes(s);
    } else {
      EightBytes(s);
    }
  }

  lemma OneByte(s: seq<byte>)
    requires |s| == 1
    ensures FromLE(s) == s[0]
  {
    assert s[1..] == [];
  }

  /** A pointer is the number its 8 bytes hold. */
  lemma PointerIs(mem: seq<byte>, a: nat)
    requires a + 8 <= |mem|
    ensures Holds(mem, a, 8, LoadPtr(mem, a))
  {
    var s := Load(mem, a, 8);
    hide FromLE, Load;
    assert s == mem[a..a + 8];
    EightBytes(s);
  }

  // ----- where the places of a field are

  /** A place in one field of the record is a place of the record. */
  lemma RecordPlace(sch: Schema, mem: seq<byte>, f: nat, i: nat, a: nat, off: int, to: Target)
    requires ValidSchema(sch) && f < |sch| && i < |sch[f].fields| && ValidType(sch, f, sch[f].fields[i].typ, false)
    requires P.At(sch, mem, f, sch[f].fields[i].typ, Counts(sch, f, mem, a), a + sch[f].fields[i].offset, off - sch[f].fields[i].offset, to)
    ensures P.RecordAt(sch, mem, f, a, off, to)
  {
    hide ValidSchema, P.At, Counts;
    assert P.FieldAt(sch, mem, f, i, a, off, to);
  }

  /** Element k of an array. */
  lemma ElemPlace(sch: Schema, mem: seq<byte>, f: nat, t: Type, counts: seq<nat>, a: nat, k: nat, off: int, to: Target)
    requires ValidSchema(sch) && f < |sch| && ValidType(sch, f, t, false) && t.Array? && k < DimSize(t.dim, counts)
    requires var z := Size(sch, t.next, counts); P.At(sch, mem, f, t.next, counts, a + k * z, off - k * z, to)
    ensures P.At(sch, mem, f, t, counts, a, off, to)
  {
    hide ValidSchema, Size;
    assert P.Nth(sch, mem, f, t.next, counts, a, off, to, k);
  }

  lemma TextPlace(sch: Schema, mem: seq<byte>, f: nat, counts: seq<nat>, a: nat)
    requires ValidSchema(sch) && f < |sch|
    ensures P.At(sch, mem, f, Text, counts, a, 0, CString)
  {
  }

  /** A place of a value lies inside it. */
  lemma PlaceInside(sch: Schema, mem: seq<byte>, f: nat, t: Type, counts: seq<nat>, a: nat, off: int, to: Target)
    requires ValidSchema(sch) && f < |sch| && ValidType(sch, f, t, false) && P.At(sch, mem, f, t, counts, a, off, to)
    ensures 0 <= off && off + 8 <= Size(sch, t, counts)
  {
    hide ValidSchema, P.At, TypeSlots, ValidSlots, LoadPtr, Size, ValidSlot, ValidType;
    P.TypePlaces(sch, mem, f, t, counts, a, 0, off, to);
    TypeSlotsIn(sch, mem, f, t, counts, a, 0);
    var s := TypeSlots(sch, mem, f, t, counts, a, 0);
    var i :| 0 <= i < |s| && P.IsSlot(mem, s[i], a, 0, off, to);
  }

  /** A place that covers a byte of field i is a place of field i. */
  lemma PlaceOfField(sch: Schema, mem: seq<byte>, f: nat, i: nat, a: nat, q: nat, off: int, to: Target)
    requires ValidSchema(sch) && f < |sch| && i < |sch[f].fields| && P.RecordAt(sch, mem, f, a, off, to)
    requires sch[f].fields[i].offset <= q < sch[f].fields[i].offset + Extent(sch, sch[f].fields[i]) && off <= q < off + 8
    ensures P.FieldAt(sch, mem, f, i, a, off, to)
  {
    hide ValidSchema, P.At, Counts, P.FieldAt, Extent, Size;
    var j: nat :| j < |sch[f].fields| && P.FieldAt(sch, mem, f, j, a, off, to);
    FieldPlaceInside(sch, mem, f, j, a, off, to);
    if j < i {
      FieldsApart(sch, f, j, i);
    } else if i < j {
      FieldsApart(sch, f, i, j);
    }
  }

  lemma FieldPlaceInside(sch: Schema, mem: seq<byte>, f: nat, j: nat, a: nat, off: int, to: Target)
    requires ValidSchema(sch) && f < |sch| && j < |sch[f].fields| && P.FieldAt(sch, mem, f, j, a, off, to)
    ensures var fd := sch[f].fields[j]; fd.offset <= off && off + 8 <= fd.offset + Extent(sch, fd)
  {
    hide ValidSchema, P.At, Counts, Size, ValidType, Extent;
    var fd := sch[f].fields[j];
    FieldTypeValid(sch, f, j);
    PlaceInside(sch, mem, f, fd.typ, Counts(sch, f, mem, a), a + fd.offset, off - fd.offset, to);
    FieldSize(sch, f, j, Counts(sch, f, mem, a));
  }

  lemma FieldTypeValid(sch: Schema, f: nat, i: nat)
    requires ValidSchema(sch) && f < |sch| && i < |sch[f].fields|
    ensures ValidType(sch, f, sch[f].fields[i].typ, false)
  {
    assert ValidFormat(sch, f);
    ByValueValid(sch, f, sch[f].fields[i].typ);
  }

  // ----- records, wherever they are

  /** The record of format f at a in memory has been delivered to l. */
  ghost predicate RecordDelivered(sch: Schema, f: nat, mem: seq<byte>, a: nat, m: seq<byte>, l: nat, shift: int, objs: seq<Block>)
    requires ValidSchema(sch) && f < |sch|
  {
    && l + sch[f].recordLength <= |m|
    && (forall off: int, to :: P.RecordAt(sch, mem, f, a, off, to) ==>
          0 <= off && PlaceDelivered(sch, mem, m, shift, objs, LoadPtr(mem, a + off), LoadPtr(m, l + off), to))
    && (forall i: nat :: i < sch[f].recordLength && Plain(sch, mem, Record(f), a, i) ==> m[l + i] == ByteAt(mem, a + i))
  }

  function ByteAt(mem: seq<byte>, a: nat): byte {
    if a < |mem| then mem[a] else 0
  }

  /** The record sent. */
  lemma RootRecord(sch: Schema, f: nat, mem: seq<byte>, root: nat, m: seq<byte>, at: nat, shift: int, objs: seq<Block>)
    requires ValidSchema(sch) && f < |sch| && Delivered(sch, f, mem, root, m, at, shift, objs)
    ensures RecordDelivered(sch, f, mem, root, m, at, shift, objs)
  {
    hide ValidSchema, P.RecordAt, PlaceDelivered, LoadPtr, Plain;
    assert ObjectDelivered(sch, mem, m, shift, objs, objs[0]);
    forall off: int, to | P.RecordAt(sch, mem, f, root, off, to)
      ensures 0 <= off && PlaceDelivered(sch, mem, m, shift, objs, LoadPtr(mem, root + off), LoadPtr(m, at + off), to)
    {
      assert P.ObjectAt(sch, mem, Record(f), root, off, to);
    }
  }

  /** Stored pointer q leads to a copy of the object p leads to. */
  lemma Reached(sch: Schema, mem: seq<byte>, m: seq<byte>, shift: int, objs: seq<Block>, p: nat, q: nat, to: Target) returns (b: Block)
    requires ValidSchema(sch) && to.Data? && PlaceDelivered(sch, mem, m, shift, objs, p, q, to) && p != 0 && Size(sch, to.typ, []) != 0
    requires forall k :: 0 <= k < |objs| ==> ObjectDelivered(sch, mem, m, shift, objs, objs[k])
    ensures q != 0 && q + shift >= 0 && b.src == p && b.target == to && b.off == q + shift
    ensures ObjectDelivered(sch, mem, m, shift, objs, b) && b.size == Size(sch, to.typ, [])
  {
    hide ValidSchema, P.ObjectAt, Plain, LoadPtr, Size, ValidTarget;
    var j :| 0 < j < |objs| && objs[j].src == p && objs[j].target == to && objs[j].off == q + shift;
    b := objs[j];
    assert ObjectDelivered(sch, mem, m, shift, objs, objs[j]);
  }

  lemma RecordPlain(sch: Schema, h: nat, g: nat, mem: seq<byte>, p: nat, i: nat)
    requires ValidSchema(sch) && h < |sch| && g < |sch| && ValidType(sch, h, Subformat(g), false) && Plain(sch, mem, Record(g), p, i)
    ensures Plain(sch, mem, Data(h, Subformat(g)), p, i)
  {
    hide ValidSchema, P.RecordAt;
    forall off: nat, to | P.ObjectAt(sch, mem, Data(h, Subformat(g)), p, off, to)
      ensures i < off || off + 8 <= i
    {
      assert P.ObjectAt(sch, mem, Record(g), p, off, to);
    }
  }

  /** A record behind a pointer. */
  lemma PointedRecord(sch: Schema, mem: seq<byte>, m: seq<byte>, shift: int, objs: seq<Block>, b: Block, g: nat)
    requires ValidSchema(sch) && g < |sch| && ObjectDelivered(sch, mem, m, shift, objs, b) && b.target.Data? && b.target.typ == Subformat(g)
    ensures RecordDelivered(sch, g, mem, b.src, m, b.off, shift, objs)
  {
    hide ValidSchema, P.RecordAt, PlaceDelivered, LoadPtr, Plain;
    forall off: int, to | P.RecordAt(sch, mem, g, b.src, off, to)
      ensures 0 <= off && PlaceDelivered(sch, mem, m, shift, objs, LoadPtr(mem, b.src + off), LoadPtr(m, b.off + off), to)
    {
      assert P.ObjectAt(sch, mem, b.target, b.src, off, to);
    }
    forall i: nat | i < sch[g].recordLength && Plain(sch, mem, Record(g), b.src, i)
      ensures m[b.off + i] == ByteAt(mem, b.src + i)
    {
      RecordPlain(sch, b.target.format, g, mem, b.src, i);
    }
  }

  lemma PlaceOfRecord(sch: Schema, f: nat, mem: seq<byte>, a: nat, m: seq<byte>, l: nat, shift: int, objs: seq<Block>, off: int, to: Target)
    requires ValidSchema(sch) && f < |sch| && RecordDelivered(sch, f, mem, a, m, l, shift, objs) && P.RecordAt(sch, mem, f, a, off, to)
    ensures 0 <= off && PlaceDelivered(sch, mem, m, shift, objs, LoadPtr(mem, a + off), LoadPtr(m, l + off), to)
  {
    hide ValidSchema, P.RecordAt, PlaceDelivered, LoadPtr, Plain;
  }

  // ----- strings

  /** The pointer at l leads to the string that the pointer at a leads to in memory, zero byte included. */
  ghost predicate TextDelivered(mem: seq<byte>, a: nat, m: seq<byte>, l: nat, shift: int) {
    var p, q := LoadPtr(mem, a), LoadPtr(m, l);
    if p == 0 then q == 0
    else q != 0 && forall n: nat :: IsString(mem, p, n) ==> CopiedTo(mem, p, n + 1, m, q + shift)
  }

  /** A string field. */
  lemma TextField(sch: Schema, f: nat, mem: seq<byte>, a: nat, m: seq<byte>, l: nat, shift: int, objs: seq<Block>, i: nat)
    requires ValidSchema(sch) && f < |sch| && RecordDelivered(sch, f, mem, a, m, l, shift, objs)
    requires i < |sch[f].fields| && sch[f].fields[i].typ == Text
    ensures var o := sch[f].fields[i].offset; TextDelivered(mem, a + o, m, l + o, shift)
  {
    hide ValidSchema, RecordDelivered, LoadPtr, IsString, CopiedTo, P.RecordAt, Counts;
    var o := sch[f].fields[i].offset;
    TextPlace(sch, mem, f, Counts(sch, f, mem, a), a + o);
    RecordPlace(sch, mem, f, i, a, o, CString);
    PlaceOfRecord(sch, f, mem, a, m, l, shift, objs, o, CString);
  }

  /** An array of strings: 8 bytes apart. */
  lemma TextArray(sch: Schema, f: nat, mem: seq<byte>, a: nat, m: seq<byte>, l: nat, shift: int, objs: seq<Block>, i: nat, n: nat, k: nat)
    requires ValidSchema(sch) && f < |sch| && RecordDelivered(sch, f, mem, a, m, l, shift, objs)
    requires i < |sch[f].fields| && sch[f].fields[i].typ == Array(Static(n), Text) && k < n
    ensures var o := sch[f].fields[i].offset + k * 8; TextDelivered(mem, a + o, m, l + o, shift)
  {
    hide ValidSchema, RecordDelivered, LoadPtr, IsString, CopiedTo, P.RecordAt, P.At, Counts;
    var b, c := a + sch[f].fields[i].offset, Counts(sch, f, mem, a);
    TextPlace(sch, mem, f, c, b + k * 8);
    ElemPlace(sch, mem, f, sch[f].fields[i].typ, c, b, k, k * 8, CString);
    RecordPlace(sch, mem, f, i, a, sch[f].fields[i].offset + k * 8, CString);
    PlaceOfRecord(sch, f, mem, a, m, l, shift, objs, sch[f].fields[i].offset + k * 8, CString);
  }

  /** A table of strings: row after row. */
  lemma TextTable(sch: Schema, f: nat, mem: seq<byte>, a: nat, m: seq<byte>, l: nat, shift: int, objs: seq<Block>, i: nat, r: nat, n: nat, j: nat, k: nat)
    requires ValidSchema(sch) && f < |sch| && RecordDelivered(sch, f, mem, a, m, l, shift, objs)
    requires i < |sch[f].fields| && sch[f].fields[i].typ == Array(Static(r), Array(Static(n), Text)) && j < r && k < n
    ensures var o := sch[f].fields[i].offset + (j * n + k) * 8; TextDelivered(mem, a + o, m, l + o, shift)
  {
    hide ValidSchema, RecordDelivered, LoadPtr, IsString, CopiedTo, P.RecordAt, P.At, Counts;
    var b, c, row := a + sch[f].fields[i].offset, Counts(sch, f, mem, a), j * (n * 8);
    assert row + k * 8 == (j * n + k) * 8;
    TextPlace(sch, mem, f, c, b + row + k * 8);
    ElemPlace(sch, mem, f, Array(Static(n), Text), c, b + row, k, k * 8, CString);
    ElemPlace(sch, mem, f, sch[f].fields[i].typ, c, b, j, row + k * 8, CString);
    RecordPlace(sch, mem, f, i, a, sch[f].fields[i].offset + row + k * 8, CString);
    PlaceOfRecord(sch, f, mem, a, m, l, shift, objs, sch[f].fields[i].offset + row + k * 8, CString);
  }

  // ----- plain data

  /** The bytes of a field without strings and pointers are not covered by any. */
  lemma BareField(sch: Schema, f: nat, mem: seq<byte>, a: nat, i: nat, q: nat)
    requires ValidSchema(sch) && f < |sch| && i < |sch[f].fields|
    requires forall off: int, to :: !P.FieldAt(sch, mem, f, i, a, off, to)
    requires sch[f].fields[i].offset <= q < sch[f].fields[i].offset + Extent(sch, sch[f].fields[i])
    ensures Plain(sch, mem, Record(f), a, q) && q < sch[f].recordLength
  {
    hide ValidSchema, P.FieldAt, P.RecordAt, Extent;
    forall off: nat, to | P.ObjectAt(sch, mem, Record(f), a, off, to)
      ensures q < off || off + 8 <= q
    {
      if off <= q < off + 8 { PlaceOfField(sch, mem, f, i, a, q, off, to); }
    }
    FieldWithin(sch, f, i);
  }

  lemma FieldWithin(sch: Schema, f: nat, i: nat)
    requires ValidSchema(sch) && f < |sch| && i < |sch[f].fields|
    ensures sch[f].fields[i].offset + Extent(sch, sch[f].fields[i]) <= sch[f].recordLength
  {
    assert ValidFormat(sch, f);
  }

  lemma BareDelivered(sch: Schema, f: nat, mem: seq<byte>, a: nat, m: seq<byte>, l: nat, shift: int, objs: seq<Block>, i: nat)
    requires ValidSchema(sch) && f < |sch| && RecordDelivered(sch, f, mem, a, m, l, shift, objs) && i < |sch[f].fields|
    requires forall off: int, to :: !P.FieldAt(sch, mem, f, i, a, off, to)
    ensures var fd := sch[f].fields[i]; CopiedTo(mem, a + fd.offset, Extent(sch, fd), m, l + fd.offset)
  {
    hide ValidSchema, P.FieldAt, P.RecordAt, Extent, Plain, PlaceDelivered, LoadPtr;
    var fd := sch[f].fields[i];
    FieldWithin(sch, f, i);
    var n := Extent(sch, fd);
    var x, y := m[l + fd.offset..l + fd.offset + n], Load(mem, a + fd.offset, n);
    forall k | 0 <= k < n
      ensures x[k] == y[k]
    {
      BareField(sch, f, mem, a, i, fd.offset + k);
      assert m[l + (fd.offset + k)] == ByteAt(mem, a + (fd.offset + k));
    }
  }

  /** A field of z bytes that is no string, pointer or record. */
  lemma PlainField(sch: Schema, f: nat, mem: seq<byte>, a: nat, m: seq<byte>, l: nat, shift: int, objs: seq<Block>, i: nat, z: nat)
    requires ValidSchema(sch) && f < |sch| && RecordDelivered(sch, f, mem, a, m, l, shift, objs)
    requires i < |sch[f].fields| && sch[f].fields[i].typ == Simple(z)
    ensures var o := sch[f].fields[i].offset; CopiedTo(mem, a + o, z, m, l + o)
  {
    hide ValidSchema, RecordDelivered, CopiedTo;
    BareDelivered(sch, f, mem, a, m, l, shift, objs, i);
  }

  /** An array of n of them. */
  lemma PlainArray(sch: Schema, f: nat, mem: seq<byte>, a: nat, m: seq<byte>, l: nat, shift: int, objs: seq<Block>, i: nat, n: nat, z: nat)
    requires ValidSchema(sch) && f < |sch| && RecordDelivered(sch, f, mem, a, m, l, shift, objs)
    requires i < |sch[f].fields| && sch[f].fields[i].typ == Array(Static(n), Simple(z))
    ensures var o := sch[f].fields[i].offset; CopiedTo(mem, a + o, n * z, m, l + o)
  {
    hide ValidSchema, RecordDelivered, CopiedTo;
    ArrayExtent(sch, sch[f].fields[i]);
    forall off: int, to | P.FieldAt(sch, mem, f, i, a, off, to)
      ensures false
    {
      NoPlaceInArray(sch, mem, f, i, a, n, z, off, to);
    }
    BareDelivered(sch, f, mem, a, m, l, shift, objs, i);
  }

  lemma NoPlaceInArray(sch: Schema, mem: seq<byte>, f: nat, i: nat, a: nat, n: nat, z: nat, off: int, to: Target)
    requires ValidSchema(sch) && f < |sch| && i < |sch[f].fields| && sch[f].fields[i].typ == Array(Static(n), Simple(z))
    ensures !P.FieldAt(sch, mem, f, i, a, off, to)
  {
    hide ValidSchema, Counts, P.RecordAt;
    var c, b, q := Counts(sch, f, mem, a), a + sch[f].fields[i].offset, off - sch[f].fields[i].offset;
    FieldTypeValid(sch, f, i);
    if P.At(sch, mem, f, sch[f].fields[i].typ, c, b, q, to) {
      var k := SomeElem(sch, mem, f, sch[f].fields[i].typ, c, b, q, to);
      NthPlain(sch, mem, f, z, c, b, q, to, k);
    }
  }

  lemma SomeElem(sch: Schema, mem: seq<byte>, f: nat, t: Type, counts: seq<nat>, a: nat, off: int, to: Target) returns (k: nat)
    requires ValidSchema(sch) && f < |sch| && ValidType(sch, f, t, false) && t.Array? && P.At(sch, mem, f, t, counts, a, off, to)
    ensures k < DimSize(t.dim, counts) && P.Nth(sch, mem, f, t.next, counts, a, off, to, k)
  {
    hide ValidSchema, P.RecordAt, DimSize;
    k :| 0 <= k < DimSize(t.dim, counts) && P.Nth(sch, mem, f, t.next, counts, a, off, to, k);
  }

  lemma NthPlain(sch: Schema, mem: seq<byte>, f: nat, z: nat, counts: seq<nat>, a: nat, off: int, to: Target, k: nat)
    requires ValidSchema(sch) && f < |sch|
    ensures !P.Nth(sch, mem, f, Simple(z), counts, a, off, to, k)
  {
    hide ValidSchema, Size;
  }

  lemma NthRecord(sch: Schema, mem: seq<byte>, f: nat, g: nat, counts: seq<nat>, a: nat, off: int, to: Target, k: nat)
    requires ValidSchema(sch) && f < |sch| && g < |sch| && ValidType(sch, f, Subformat(g), false)
    ensures var e := k * sch[g].recordLength;
      P.Nth(sch, mem, f, Subformat(g), counts, a, off, to, k) <==> P.RecordAt(sch, mem, g, a + e, off - e, to)
  {
    hide ValidSchema, Size, P.RecordAt;
    ElemSizeIs(sch, Subformat(g), counts);
  }

  lemma ArrayExtent(sch: Schema, fd: Field)
    requires fd.typ.Array? && fd.typ.dim.Static? && !fd.typ.next.Array?
    ensures Extent(sch, fd) == fd.typ.dim.count * ElemSize(sch, fd.typ.next)
  {
    assert ElemCount(fd.typ.next, []) == 1;
    assert ElemType(fd.typ.next) == fd.typ.next;
  }

  // ----- records held by value

  /** Record k of an array of records. */
  lemma RecordOfArray(sch: Schema, f: nat, mem: seq<byte>, a: nat, m: seq<byte>, l: nat, shift: int, objs: seq<Block>, i: nat, g: nat, n: nat, k: nat)
    requires ValidSchema(sch) && f < |sch| && g < |sch| && RecordDelivered(sch, f, mem, a, m, l, shift, objs)
    requires i < |sch[f].fields| && sch[f].fields[i].typ == Array(Static(n), Subformat(g)) && k < n
    ensures var o := sch[f].fields[i].offset + k * sch[g].recordLength; RecordDelivered(sch, g, mem, a + o, m, l + o, shift, objs)
  {
    hide ValidSchema, P.RecordAt, LoadPtr, Plain, PlaceDelivered;
    var z, fd := sch[g].recordLength, sch[f].fields[i];
    var o := fd.offset + k * z;
    RowInside(k, n, z);
    FieldWithin(sch, f, i);
    ArrayExtent(sch, fd);
    var b, r := a + o, l + o;
    forall off: int, to | P.RecordAt(sch, mem, g, b, off, to)
      ensures 0 <= off && PlaceDelivered(sch, mem, m, shift, objs, LoadPtr(mem, b + off), LoadPtr(m, r + off), to)
    {
      RecordInside(sch, mem, g, b, off, to);
      OuterPlace(sch, f, mem, a, i, g, n, k, off, to);
      assert b + off == a + (o + off) && r + off == l + (o + off);
    }
    forall q: nat | q < z && Plain(sch, mem, Record(g), b, q)
      ensures m[r + q] == ByteAt(mem, b + q)
    {
      OuterPlain(sch, f, mem, a, i, g, n, k, q);
      assert m[l + (o + q)] == ByteAt(mem, a + (o + q));
    }
  }

  lemma RowInside(k: nat, n: nat, z: nat)
    requires k < n
    ensures k * z + z <= n * z
  {
    assert (k + 1) * z <= n * z;
  }

  lemma RecordInside(sch: Schema, mem: seq<byte>, g: nat, a: nat, off: int, to: Target)
    requires ValidSchema(sch) && g < |sch| && P.RecordAt(sch, mem, g, a, off, to)
    ensures 0 <= off && off + 8 <= sch[g].recordLength
  {
    hide ValidSchema, P.FieldAt, Extent;
    var j: nat :| j < |sch[g].fields| && P.FieldAt(sch, mem, g, j, a, off, to);
    FieldPlaceInside(sch, mem, g, j, a, off, to);
    FieldWithin(sch, g, j);
  }

  lemma OuterPlace(sch: Schema, f: nat, mem: seq<byte>, a: nat, i: nat, g: nat, n: nat, k: nat, off: int, to: Target)
    requires ValidSchema(sch) && f < |sch| && g < |sch|
    requires i < |sch[f].fields| && sch[f].fields[i].typ == Array(Static(n), Subformat(g)) && k < n
    requires var o := sch[f].fields[i].offset + k * sch[g].recordLength; P.RecordAt(sch, mem, g, a + o, off, to)
    ensures var o := sch[f].fields[i].offset + k * sch[g].recordLength; P.RecordAt(sch, mem, f, a, o + off, to)
  {
    hide ValidSchema, P.RecordAt, Counts;
    var fd, c, e := sch[f].fields[i], Counts(sch, f, mem, a), k * sch[g].recordLength;
    FieldTypeValid(sch, f, i);
    assert P.At(sch, mem, f, Subformat(g), c, a + fd.offset + e, off, to);
    ElemPlace(sch, mem, f, fd.typ, c, a + fd.offset, k, e + off, to);
    RecordPlace(sch, mem, f, i, a, fd.offset + e + off, to);
  }

  lemma OuterPlain(sch: Schema, f: nat, mem: seq<byte>, a: nat, i: nat, g: nat, n: nat, k: nat, q: nat)
    requires ValidSchema(sch) && f < |sch| && g < |sch|
    requires i < |sch[f].fields| && sch[f].fields[i].typ == Array(Static(n), Subformat(g)) && k < n
    requires var o := sch[f].fields[i].offset + k * sch[g].recordLength; Plain(sch, mem, Record(g), a + o, q) && q < sch[g].recordLength
    ensures var o := sch[f].fields[i].offset + k * sch[g].recordLength; Plain(sch, mem, Record(f), a, o + q)
  {
    hide ValidSchema, P.RecordAt, P.FieldAt;
    var z, fd := sch[g].recordLength, sch[f].fields[i];
    var o := fd.offset + k * z;
    RowInside(k, n, z);
    ArrayExtent(sch, fd);
    forall off: nat, to | P.ObjectAt(sch, mem, Record(f), a, off, to)
      ensures o + q < off || off + 8 <= o + q
    {
      if off <= o + q < off + 8 {
        PlaceOfField(sch, mem, f, i, a, o + q, off, to);
        InnerPlace(sch, f, mem, a, i, g, n, k, q, off, to);
        NotPlain(sch, mem, g, a + o, q, off - o, to);
      }
    }
  }

  lemma NotPlain(sch: Schema, mem: seq<byte>, g: nat, a: nat, q: nat, off: nat, to: Target)
    requires ValidSchema(sch) && g < |sch| && P.RecordAt(sch, mem, g, a, off, to) && off <= q < off + 8
    ensures !Plain(sch, mem, Record(g), a, q)
  {
    assert P.ObjectAt(sch, mem, Record(g), a, off, to);
  }

  lemma InnerPlace(sch: Schema, f: nat, mem: seq<byte>, a: nat, i: nat, g: nat, n: nat, k: nat, q: nat, off: nat, to: Target)
    requires ValidSchema(sch) && f < |sch| && g < |sch|
    requires i < |sch[f].fields| && sch[f].fields[i].typ == Array(Static(n), Subformat(g)) && k < n && q < sch[g].recordLength
    requires var o := sch[f].fields[i].offset + k * sch[g].recordLength;
      off <= o + q < off + 8 && P.FieldAt(sch, mem, f, i, a, off, to)
    ensures var o := sch[f].fields[i].offset + k * sch[g].recordLength; off >= o && P.RecordAt(sch, mem, g, a + o, off - o, to)
  {
    hide ValidSchema, P.RecordAt, Counts, P.At;
    var fd := sch[f].fields[i];
    FieldTypeValid(sch, f, i);
    InnerElem(sch, f, mem, a + fd.offset, Counts(sch, f, mem, a), fd.typ, g, k, q, off - fd.offset, to);
  }

  /** A place of an array of records that covers a byte of record k is a place of record k. */
  lemma InnerElem(sch: Schema, f: nat, mem: seq<byte>, a: nat, counts: seq<nat>, t: Type, g: nat, k: nat, q: nat, off: int, to: Target)
    requires ValidSchema(sch) && f < |sch| && g < |sch| && ValidType(sch, f, t, false) && t.Array? && t.next == Subformat(g)
    requires q < sch[g].recordLength && P.At(sch, mem, f, t, counts, a, off, to)
    requires off <= k * sch[g].recordLength + q < off + 8
    ensures var e := k * sch[g].recordLength; off >= e && P.RecordAt(sch, mem, g, a + e, off - e, to)
  {
    hide ValidSchema, P.RecordAt, P.At, P.Nth;
    var z := sch[g].recordLength;
    var j := SomeElem(sch, mem, f, t, counts, a, off, to);
    NthRecord(sch, mem, f, g, counts, a, off, to, j);
    RecordInside(sch, mem, g, a + j * z, off - j * z, to);
    SameRow(j, k, z, off, q);
  }

  /** Eight bytes inside row j that cover a byte of row k. */
  lemma SameRow(j: nat, k: nat, z: nat, off: int, q: nat)
    requires q < z && j * z <= off && off + 8 <= j * z + z && off <= k * z + q < off + 8
    ensures j == k
  {
    assert (j + 1) * z == j * z + z && (k + 1) * z == k * z + z;
    P.Below(j, k + 1, z);
    P.Below(k, j + 1, z);
  }

  // ----- behind pointers

  /** Every object in m has been delivered. */
  ghost predicate AllDelivered(sch: Schema, mem: seq<byte>, m: seq<byte>, shift: int, objs: seq<Block>)
    requires ValidSchema(sch)
  {
    forall k :: 0 <= k < |objs| ==> ObjectDelivered(sch, mem, m, shift, objs, objs[k])
  }

  /** The dimension is c: a number, or the value of a control field of the record at a. */
  ghost predicate DimIs(sch: Schema, f: nat, mem: seq<byte>, a: nat, d: Dim, c: nat)
    requires f < |sch|
  {
    match d
    case Static(n) => c == n
    case Control(j) =>
      j < |sch[f].fields| && sch[f].fields[j].typ.Simple?
      && var fd := sch[f].fields[j]; fd.typ.size in {1, 2, 4, 8} && Holds(mem, a + fd.offset, fd.typ.size, c)
  }

  lemma DimSizeIs(sch: Schema, f: nat, mem: seq<byte>, a: nat, d: Dim, c: nat)
    requires f < |sch| && DimIs(sch, f, mem, a, d, c)
    ensures DimSize(d, Counts(sch, f, mem, a)) == c
  {
    hide Holds, ReadCount;
    if d.Control? {
      var fd := sch[f].fields[d.field];
      CountIs(mem, a + fd.offset, fd.typ.size, c);
    }
  }

  /** What a pointer field leads to. */
  lemma PointerField(sch: Schema, f: nat, mem: seq<byte>, a: nat, m: seq<byte>, l: nat, shift: int, objs: seq<Block>, i: nat) returns (to: Target)
    requires ValidSchema(sch) && f < |sch| && RecordDelivered(sch, f, mem, a, m, l, shift, objs)
    requires i < |sch[f].fields| && sch[f].fields[i].typ.Pointer?
    ensures var fd := sch[f].fields[i];
      && to.Data? && ValidTarget(sch, to) && to.typ == Resolve(fd.typ.next, Counts(sch, f, mem, a))
      && PlaceDelivered(sch, mem, m, shift, objs, LoadPtr(mem, a + fd.offset), LoadPtr(m, l + fd.offset), to)
  {
    hide ValidSchema, RecordDelivered, LoadPtr, P.RecordAt, Counts, PlaceDelivered;
    var fd, c := sch[f].fields[i], Counts(sch, f, mem, a);
    FieldTypeValid(sch, f, i);
    to := Aim(sch, f, fd.typ.next, c);
    assert P.At(sch, mem, f, fd.typ, c, a + fd.offset, 0, to);
    RecordPlace(sch, mem, f, i, a, fd.offset, to);
    PlaceOfRecord(sch, f, mem, a, m, l, shift, objs, fd.offset, to);
  }

  /** An object without strings and pointers. */
  lemma BareObject(sch: Schema, mem: seq<byte>, m: seq<byte>, shift: int, objs: seq<Block>, b: Block)
    requires ValidSchema(sch) && ObjectDelivered(sch, mem, m, shift, objs, b)
    requires forall off: int, to :: !P.ObjectAt(sch, mem, b.target, b.src, off, to)
    ensures CopiedTo(mem, b.src, b.size, m, b.off)
  {
    hide ValidSchema, P.ObjectAt, TargetSize, PlaceDelivered, LoadPtr, Load;
    forall i: nat | i < b.size
      ensures m[b.off + i] == Load(mem, b.src, b.size)[i]
    {
      assert Plain(sch, mem, b.target, b.src, i);
    }
  }

  /** A pointer to c elements of z bytes. */
  lemma CountedData(sch: Schema, f: nat, mem: seq<byte>, a: nat, m: seq<byte>, l: nat, shift: int, objs: seq<Block>, i: nat, d: Dim, z: nat, c: nat, n: nat)
    requires ValidSchema(sch) && f < |sch| && RecordDelivered(sch, f, mem, a, m, l, shift, objs) && AllDelivered(sch, mem, m, shift, objs)
    requires i < |sch[f].fields| && sch[f].fields[i].typ == Pointer(Array(d, Simple(z))) && DimIs(sch, f, mem, a, d, c) && n == c * z
    ensures var o := sch[f].fields[i].offset; var p, q := LoadPtr(mem, a + o), LoadPtr(m, l + o);
      if p == 0 || n == 0 then q == 0 else q != 0 && CopiedTo(mem, p, n, m, q + shift)
  {
    hide ValidSchema, RecordDelivered, LoadPtr, P.ObjectAt, Counts, DimIs, CopiedTo, DimSize, ObjectDelivered, ValidTarget, Size, Resolve, PlaceDelivered, AllDelivered, ValidType, Extent;
    var o := sch[f].fields[i].offset;
    var p, q := LoadPtr(mem, a + o), LoadPtr(m, l + o);
    var to := PointerField(sch, f, mem, a, m, l, shift, objs, i);
    ResolvedArray(sch, f, mem, a, d, Simple(z), c, z);
    DataBehind(sch, mem, m, shift, objs, p, q, to, c, z);
  }

  lemma DataBehind(sch: Schema, mem: seq<byte>, m: seq<byte>, shift: int, objs: seq<Block>, p: nat, q: nat, to: Target, c: nat, z: nat)
    requires ValidSchema(sch) && AllDelivered(sch, mem, m, shift, objs) && PlaceDelivered(sch, mem, m, shift, objs, p, q, to)
    requires to.Data? && ValidTarget(sch, to) && to.typ == Array(Static(c), Simple(z))
    ensures var n := Size(sch, to.typ, []); if p == 0 || n == 0 then q == 0 else q != 0 && CopiedTo(mem, p, n, m, q + shift)
  {
    hide ValidSchema, P.ObjectAt, CopiedTo, ObjectDelivered, Size, ValidTarget;
    if p != 0 && Size(sch, to.typ, []) != 0 {
      var b := Reached(sch, mem, m, shift, objs, p, q, to);
      forall off: int, u | P.ObjectAt(sch, mem, to, p, off, u)
        ensures false
      {
        NoPlaceInData(sch, mem, to, c, z, p, off, u);
      }
      BareObject(sch, mem, m, shift, objs, b);
    }
  }

  lemma ResolvedArray(sch: Schema, f: nat, mem: seq<byte>, a: nat, d: Dim, t: Type, c: nat, z: nat)
    requires f < |sch| && DimIs(sch, f, mem, a, d, c) && !t.Array? && !t.Pointer? && z == ElemSize(sch, t)
    ensures Resolve(Array(d, t), Counts(sch, f, mem, a)) == Array(Static(c), t)
    ensures Size(sch, Array(Static(c), t), []) == c * z
  {
    hide Counts, DimSize, DimIs;
    DimSizeIs(sch, f, mem, a, d, c);
    RowSize(sch, c, t);
  }

  lemma RowSize(sch: Schema, c: nat, t: Type)
    requires !t.Array?
    ensures Size(sch, Array(Static(c), t), []) == c * ElemSize(sch, t)
  {
    assert ElemCount(t, []) == 1 && ElemType(t) == t;
  }

  lemma NoPlaceInData(sch: Schema, mem: seq<byte>, t: Target, c: nat, z: nat, p: nat, off: int, u: Target)
    requires ValidSchema(sch) && ValidTarget(sch, t) && t.Data? && t.typ == Array(Static(c), Simple(z))
    ensures !P.ObjectAt(sch, mem, t, p, off, u)
  {
    hide ValidSchema, P.Nth;
    if P.At(sch, mem, t.format, t.typ, [], p, off, u) {
      var k := SomeElem(sch, mem, t.format, t.typ, [], p, off, u);
      NthPlain(sch, mem, t.format, z, [], p, off, u, k);
    }
  }

  /** What was delivered for a place of an object. */
  lemma PlaceOfObject(sch: Schema, mem: seq<byte>, m: seq<byte>, shift: int, objs: seq<Block>, b: Block, off: nat, to: Target)
    requires ValidSchema(sch) && ObjectDelivered(sch, mem, m, shift, objs, b) && P.ObjectAt(sch, mem, b.target, b.src, off, to)
    ensures PlaceDelivered(sch, mem, m, shift, objs, LoadPtr(mem, b.src + off), LoadPtr(m, b.off + off), to)
  {
    hide ValidSchema, P.ObjectAt, TargetSize, PlaceDelivered, LoadPtr, Plain;
  }

  /** A pointer to c strings. */
  lemma CountedTexts(sch: Schema, f: nat, mem: seq<byte>, a: nat, m: seq<byte>, l: nat, shift: int, objs: seq<Block>, i: nat, d: Dim, c: nat)
    requires ValidSchema(sch) && f < |sch| && RecordDelivered(sch, f, mem, a, m, l, shift, objs) && AllDelivered(sch, mem, m, shift, objs)
    requires i < |sch[f].fields| && sch[f].fields[i].typ == Pointer(Array(d, Text)) && DimIs(sch, f, mem, a, d, c)
    ensures var o := sch[f].fields[i].offset; var p, q := LoadPtr(mem, a + o), LoadPtr(m, l + o);
      if p == 0 || c == 0 then q == 0
      else q != 0 && q + shift >= 0 && forall k: nat :: k < c ==> TextDelivered(mem, p + k * 8, m, q + shift + k * 8, shift)
  {
    hide ValidSchema, RecordDelivered, LoadPtr, P.ObjectAt, Counts, DimIs, DimSize, ObjectDelivered, ValidTarget, TextDelivered, Size, Resolve;
    var o := sch[f].fields[i].offset;
    var p, q := LoadPtr(mem, a + o), LoadPtr(m, l + o);
    var to := PointerField(sch, f, mem, a, m, l, shift, objs, i);
    ResolvedArray(sch, f, mem, a, d, Text, c, 8);
    if p != 0 && c != 0 {
      var b := Reached(sch, mem, m, shift, objs, p, q, to);
      forall k: nat | k < c
        ensures TextDelivered(mem, p + k * 8, m, q + shift + k * 8, shift)
      {
        TextOfArray(sch, mem, m, shift, objs, b, c, k);
      }
    }
  }

  lemma TextOfArray(sch: Schema, mem: seq<byte>, m: seq<byte>, shift: int, objs: seq<Block>, b: Block, c: nat, k: nat)
    requires ValidSchema(sch) && ObjectDelivered(sch, mem, m, shift, objs, b) && b.target.Data? && b.target.typ == Array(Static(c), Text) && k < c
    ensures TextDelivered(mem, b.src + k * 8, m, b.off + k * 8, shift)
  {
    hide ValidSchema, ObjectDelivered, LoadPtr, P.At, IsString, CopiedTo;
    assert ValidTarget(sch, b.target) by { TargetIsValid(sch, mem, m, shift, objs, b); }
    TextPlace(sch, mem, b.target.format, [], b.src + k * 8);
    ElemPlace(sch, mem, b.target.format, b.target.typ, [], b.src, k, k * 8, CString);
    PlaceOfObject(sch, mem, m, shift, objs, b, k * 8, CString);
  }

  lemma TargetIsValid(sch: Schema, mem: seq<byte>, m: seq<byte>, shift: int, objs: seq<Block>, b: Block)
    requires ValidSchema(sch) && ObjectDelivered(sch, mem, m, shift, objs, b)
    ensures ValidTarget(sch, b.target)
  {
  }

  /** A pointer to a record. */
  lemma RecordBehind(sch: Schema, f: nat, mem: seq<byte>, a: nat, m: seq<byte>, l: nat, shift: int, objs: seq<Block>, i: nat, g: nat)
    requires ValidSchema(sch) && f < |sch| && RecordDelivered(sch, f, mem, a, m, l, shift, objs) && AllDelivered(sch, mem, m, shift, objs)
    requires i < |sch[f].fields| && g < |sch| && sch[f].fields[i].typ == Pointer(Subformat(g))
    ensures var o := sch[f].fields[i].offset; var p, q := LoadPtr(mem, a + o), LoadPtr(m, l + o);
      if p == 0 || sch[g].recordLength == 0 then q == 0
      else q != 0 && q + shift >= 0 && RecordDelivered(sch, g, mem, p, m, q + shift, shift, objs)
  {
    hide ValidSchema, RecordDelivered, LoadPtr, P.ObjectAt, Counts, ObjectDelivered, ValidTarget;
    var o := sch[f].fields[i].offset;
    var p, q := LoadPtr(mem, a + o), LoadPtr(m, l + o);
    var to := PointerField(sch, f, mem, a, m, l, shift, objs, i);
    ElemSizeIs(sch, Subformat(g), []);
    if p != 0 && sch[g].recordLength != 0 {
      var b := Reached(sch, mem, m, shift, objs, p, q, to);
      PointedRecord(sch, mem, m, shift, objs, b, g);
    }
  }

  /** c records one after the other. */
  ghost predicate RecordsDelivered(sch: Schema, g: nat, mem: seq<byte>, a: nat, m: seq<byte>, l: nat, shift: int, objs: seq<Block>, c: nat)
    requires ValidSchema(sch) && g < |sch|
  {
    forall k: nat :: k < c ==> RecordDelivered(sch, g, mem, a + k * sch[g].recordLength, m, l + k * sch[g].recordLength, shift, objs)
  }

  /** A pointer to c records. */
  lemma CountedRecords(sch: Schema, f: nat, mem: seq<byte>, a: nat, m: seq<byte>, l: nat, shift: int, objs: seq<Block>, i: nat, d: Dim, g: nat, c: nat, n: nat)
    requires ValidSchema(sch) && f < |sch| && RecordDelivered(sch, f, mem, a, m, l, shift, objs) && AllDelivered(sch, mem, m, shift, objs)
    requires i < |sch[f].fields| && g < |sch| && sch[f].fields[i].typ == Pointer(Array(d, Subformat(g))) && DimIs(sch, f, mem, a, d, c) && n == c * sch[g].recordLength
    ensures var o := sch[f].fields[i].offset; var p, q := LoadPtr(mem, a + o), LoadPtr(m, l + o);
      if p == 0 || n == 0 then q == 0
      else q != 0 && q + shift >= 0 && RecordsDelivered(sch, g, mem, p, m, q + shift, shift, objs, c)
  {
    hide ValidSchema, RecordDelivered, RecordsDelivered, LoadPtr, P.ObjectAt, Counts, DimIs, DimSize, ObjectDelivered, ValidTarget, Size, Resolve, PlaceDelivered, AllDelivered, ValidType, Extent;
    var o := sch[f].fields[i].offset;
    var p, q, z := LoadPtr(mem, a + o), LoadPtr(m, l + o), sch[g].recordLength;
    var to := PointerField(sch, f, mem, a, m, l, shift, objs, i);
    ResolvedArray(sch, f, mem, a, d, Subformat(g), c, z);
    RecordsBehind(sch, mem, m, shift, objs, p, q, to, g, c);
  }

  lemma RecordsBehind(sch: Schema, mem: seq<byte>, m: seq<byte>, shift: int, objs: seq<Block>, p: nat, q: nat, to: Target, g: nat, c: nat)
    requires ValidSchema(sch) && AllDelivered(sch, mem, m, shift, objs) && PlaceDelivered(sch, mem, m, shift, objs, p, q, to)
    requires to.Data? && ValidTarget(sch, to) && g < |sch| && to.typ == Array(Static(c), Subformat(g))
    requires Size(sch, to.typ, []) == c * sch[g].recordLength
    ensures if p == 0 || Size(sch, to.typ, []) == 0 then q == 0
      else q != 0 && q + shift >= 0 && RecordsDelivered(sch, g, mem, p, m, q + shift, shift, objs, c)
  {
    hide ValidSchema, RecordDelivered, P.ObjectAt, ObjectDelivered, Size, ValidTarget;
    if p != 0 && Size(sch, to.typ, []) != 0 {
      var b := Reached(sch, mem, m, shift, objs, p, q, to);
      forall k: nat | k < c
        ensures RecordDelivered(sch, g, mem, p + k * sch[g].recordLength, m, q + shift + k * sch[g].recordLength, shift, objs)
      {
        RecordBehindAt(sch, mem, m, shift, objs, b, g, c, k);
      }
    }
  }

  lemma RecordBehindAt(sch: Schema, mem: seq<byte>, m: seq<byte>, shift: int, objs: seq<Block>, b: Block, g: nat, c: nat, k: nat)
    requires ValidSchema(sch) && ObjectDelivered(sch, mem, m, shift, objs, b) && b.target.Data? && g < |sch|
    requires b.target.typ == Array(Static(c), Subformat(g)) && k < c && b.size == c * sch[g].recordLength
    ensures var e := k * sch[g].recordLength; RecordDelivered(sch, g, mem, b.src + e, m, b.off + e, shift, objs)
  {
    hide ValidSchema, P.RecordAt, LoadPtr, Plain, PlaceDelivered, P.ObjectAt, TargetSize;
    var z := sch[g].recordLength;
    var e := k * z;
    RowInside(k, c, z);
    var x, y := b.src + e, b.off + e;
    forall off: int, to | P.RecordAt(sch, mem, g, x, off, to)
      ensures 0 <= off && PlaceDelivered(sch, mem, m, shift, objs, LoadPtr(mem, x + off), LoadPtr(m, y + off), to)
    {
      RecordInside(sch, mem, g, x, off, to);
      RowPlace(sch, mem, b.target, g, c, k, b.src, off, to);
      assert x + off == b.src + (e + off) && y + off == b.off + (e + off);
    }
    forall q: nat | q < z && Plain(sch, mem, Record(g), x, q)
      ensures m[y + q] == ByteAt(mem, x + q)
    {
      RowPlain(sch, mem, b.target, g, c, k, b.src, q);
      assert m[b.off + (e + q)] == Load(mem, b.src, b.size)[e + q];
    }
  }

  lemma RowPlace(sch: Schema, mem: seq<byte>, t: Target, g: nat, c: nat, k: nat, p: nat, off: nat, to: Target)
    requires ValidSchema(sch) && ValidTarget(sch, t) && t.Data? && g < |sch| && t.typ == Array(Static(c), Subformat(g)) && k < c
    requires P.RecordAt(sch, mem, g, p + k * sch[g].recordLength, off, to)
    ensures P.ObjectAt(sch, mem, t, p, k * sch[g].recordLength + off, to)
  {
    hide ValidSchema, P.RecordAt;
    var e := k * sch[g].recordLength;
    assert P.At(sch, mem, t.format, Subformat(g), [], p + e, off, to);
    ElemSizeIs(sch, Subformat(g), []);
    ElemPlace(sch, mem, t.format, t.typ, [], p, k, e + off, to);
  }

  lemma RowPlain(sch: Schema, mem: seq<byte>, t: Target, g: nat, c: nat, k: nat, p: nat, q: nat)
    requires ValidSchema(sch) && ValidTarget(sch, t) && t.Data? && g < |sch| && t.typ == Array(Static(c), Subformat(g)) && k < c
    requires q < sch[g].recordLength && Plain(sch, mem, Record(g), p + k * sch[g].recordLength, q)
    ensures Plain(sch, mem, t, p, k * sch[g].recordLength + q)
  {
    hide ValidSchema, P.RecordAt, P.At;
    var e := k * sch[g].recordLength;
    forall off: nat, to | P.ObjectAt(sch, mem, t, p, off, to)
      ensures e + q < off || off + 8 <= e + q
    {
      if off <= e + q < off + 8 {
        InnerElem(sch, t.format, mem, p, [], t.typ, g, k, q, off, to);
        NotPlain(sch, mem, g, p + e, q, off - e, to);
      }
    }
  }

  // ----- messages and images

  /** A message: the record and everything behind it have been delivered, counted from the end
      of the header. */
  lemma RecordSent(sch: Schema, f: nat, id: seq<byte>, mem: seq<byte>, root: nat, nodes: set<Node>, junk: byte, base: nat)
    requires Encodable(sch, f, id, mem, root, nodes, junk, base)
    ensures var r := Encode(sch, f, id, mem, root, true, junk); var h := HeaderSize(|id|, true);
      RecordDelivered(sch, f, mem, root, r.buf, h, h, r.log) && AllDelivered(sch, mem, r.buf, h, r.log)
  {
    hide ValidSchema, Encode, HeaderSize, Graph, ObjectDelivered, RecordDelivered;
    PlacesSent(sch, f, id, mem, root, nodes, junk, base);
    var r := Encode(sch, f, id, mem, root, true, junk);
    RootRecord(sch, f, mem, root, r.buf, HeaderSize(|id|, true), HeaderSize(|id|, true), r.log);
  }

  /** A decoded image at address base: the same, counted from its start. */
  lemma RecordBack(sch: Schema, f: nat, mem: seq<byte>, root: nat, image: seq<byte>, base: nat, objs: seq<Block>)
    requires ValidSchema(sch) && f < |sch| && sch[f].recordLength > 0 && SameGraph(sch, f, mem, root, image, base, objs)
    ensures RecordDelivered(sch, f, mem, root, image, objs[0].off, -(base as int), objs)
    ensures AllDelivered(sch, mem, image, -(base as int), objs)
  {
    hide ValidSchema, ObjectDelivered, RecordDelivered;
    RootSize(sch, f, mem, root, image, base, objs);
    PlacesBack(sch, f, mem, root, image, base, objs);
    RootRecord(sch, f, mem, root, image, objs[0].off, -(base as int), objs);
  }

  lemma RootSize(sch: Schema, f: nat, mem: seq<byte>, root: nat, image: seq<byte>, base: nat, objs: seq<Block>)
    requires ValidSchema(sch) && f < |sch| && SameGraph(sch, f, mem, root, image, base, objs)
    ensures objs[0].size == sch[f].recordLength
  {
    assert Rebuilt(sch, mem, image, base, objs, 0);
  }

  /** The header: the format ID, the length of the rest in 8 bytes, zeroes up to a multiple of 8. */
  lemma HeaderSent(sch: Schema, f: nat, id: seq<byte>, mem: seq<byte>, root: nat, nodes: set<Node>, junk: byte, base: nat)
    requires Encodable(sch, f, id, mem, root, nodes, junk, base)
    ensures var r := Encode(sch, f, id, mem, root, true, junk); var h := HeaderSize(|id|, true);
      && h % 8 == 0 && |id| + 8 <= h < |id| + 16 && h + sch[f].recordLength <= |r.buf|
      && r.buf[..|id|] == id && Holds(r.buf, |id|, 8, |r.buf| - h)
      && forall i :: |id| + 8 <= i < h ==> r.buf[i] == 0
  {
    hide ValidSchema, AfterStart, HeaderSize, Header, Emit, TargetSlots, Graph, LogOk, Store, ToLE, CopyAt, Emitting, Encode, BlocksOk, Holds;
    var s := AfterStart(sch, f, id, mem, root, true, junk);
    var e := Walked(sch, f, id, mem, root, junk);
    var r := Encode(sch, f, id, mem, root, true, junk);
    var h := HeaderSize(|id|, true);
    StartEmitting(sch, f, id, mem, root, nodes, junk, base);
    StartShape(sch, f, id, mem, root, true, junk);
    MessageBlocks(sch, f, id, mem, root, nodes, junk, base);
    HeaderKept(sch, f, id, mem, root, junk);
    HeaderBytes(id);
    assert r.outLen < POW64;
    StoredLength(e.buf, |id|, e.outLen - h, h);
    forall i | 0 <= i < h && (i < |id| || |id| + 8 <= i)
      ensures r.buf[i] == Header(id, true)[i]
    {
      assert e.buf[i] == e.buf[..h][i];
    }
    assert r.buf[..|id|] == id by {
      forall i | 0 <= i < |id|
        ensures r.buf[i] == id[i]
      {
      }
    }
    RootRoom(sch, f, mem, root, nodes, r);
  }

  lemma RootRoom(sch: Schema, f: nat, mem: seq<byte>, root: nat, nodes: set<Node>, r: EState)
    requires ValidSchema(sch) && f < |sch| && LogOk(sch, mem, root, nodes, r) && |r.buf| == r.outLen
    requires r.log[0] == Block(root, r.delta, sch[f].recordLength, false, Record(f), true, r.delta)
    ensures r.delta + sch[f].recordLength <= |r.buf|
  {
    hide ValidSchema;
    assert BlockShape(sch, mem, r, 0, nodes);
  }

  /** The walk does not touch the header. */
  lemma HeaderKept(sch: Schema, f: nat, id: seq<byte>, mem: seq<byte>, root: nat, junk: byte)
    requires ValidSchema(sch) && f < |sch| && sch[f].variant
    ensures var h := HeaderSize(|id|, true); var e := Walked(sch, f, id, mem, root, junk);
      h <= |e.buf| && e.buf[..h] == Header(id, true)
  {
    hide ValidSchema, AfterStart, HeaderSize, Header, Emit, TargetSlots, ValidSlots, CopyAt;
    var s, h := AfterStart(sch, f, id, mem, root, true, junk), HeaderSize(|id|, true);
    var slots := TargetSlots(sch, mem, root, Record(f));
    StartShape(sch, f, id, mem, root, true, junk);
    TargetSlotsIn(sch, mem, root, Record(f));
    EmitFrame(sch, mem, slots, h, s);
    var e := Walked(sch, f, id, mem, root, junk);
    forall i | 0 <= i < h
      ensures e.buf[i] == s.buf[i]
    {
      assert OutsideSlots(slots, h, i);
    }
    assert e.buf[..h] == s.buf[..h];
  }

  lemma HeaderBytes(id: seq<byte>)
    ensures var h := HeaderSize(|id|, true); h % 8 == 0 && |id| + 8 <= h < |id| + 16
    ensures var b := Header(id, true); (forall i :: 0 <= i < |id| ==> b[i] == id[i]) && forall i :: |id| <= i < |b| ==> b[i] == 0
  {
  }

  lemma StoredLength(buf: seq<byte>, at: nat, v: nat, h: nat)
    requires at + 8 <= h <= |buf| && v < POW64
    ensures var r := Store(buf, at, ToLE(v, 8)); Holds(r, at, 8, v) && forall i :: 0 <= i < h && (i < at || at + 8 <= i) ==> r[i] == buf[i]
  {
    hide ToLE, Pow256;
    LoadStorePtr(buf, at, v);
    PointerIs(Store(buf, at, ToLE(v, 8)), at);
  }

  /** For every string field of the record, with p its pointer in memory: 0 stays 0; otherwise
      message and image lead to the bytes of the string, its zero byte included. */
  lemma TextRoundTrip(sch: Schema, f: nat, id: seq<byte>, mem: seq<byte>, root: nat, nodes: set<Node>, junk: byte, base: nat, i: nat, n: nat)
    requires Encodable(sch, f, id, mem, root, nodes, junk, base)
    requires i < |sch[f].fields| && sch[f].fields[i].typ == Text && IsString(mem, LoadPtr(mem, root + sch[f].fields[i].offset), n)
    ensures var o := sch[f].fields[i].offset; var p := LoadPtr(mem, root + o);
      var msg := MessageOf(sch, f, id, mem, root, junk, base); var h := msg.delta;
      var image := Conv(sch, msg, TargetSlots(sch, msg.m, h, Record(f)), h, DState(msg.m, 0)).buf;
      var q, a := LoadPtr(msg.m, h + o), LoadPtr(image, h + o);
      if p == 0 then q == 0 && a == 0
      else
        && q != 0 && h + q + n + 1 <= |msg.m| && msg.m[h + q..h + q + n + 1] == Load(mem, p, n + 1)
        && a != 0 && base <= a && a - base + n + 1 <= |image| && image[a - base..a - base + n + 1] == Load(mem, p, n + 1)
  {
    hide ValidSchema, Encode, HeaderSize, Graph, AllDelivered, RecordDelivered, Conv, TargetSlots, SameGraph, LoadPtr, IsString, Load;
    var msg := MessageOf(sch, f, id, mem, root, junk, base);
    var h, o := msg.delta, sch[f].fields[i].offset;
    var objs := Encode(sch, f, id, mem, root, true, junk).log;
    DecodeEncode(sch, f, id, mem, root, nodes, junk, base);
    var image := Conv(sch, msg, TargetSlots(sch, msg.m, h, Record(f)), h, DState(msg.m, 0)).buf;
    RecordSent(sch, f, id, mem, root, nodes, junk, base);
    TextField(sch, f, mem, root, msg.m, h, h, objs, i);
    RecordBack(sch, f, mem, root, image, base, objs);
    TextField(sch, f, mem, root, image, h, -(base as int), objs, i);
  }
}
