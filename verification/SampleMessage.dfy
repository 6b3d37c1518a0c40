/** One message in full: a record with a counted array and a string, byte for byte. */
module SampleMessage {
  import opened Bytes
  import opened Formats
  import opened ObjectGraph
  import opened EncodeSpec
  import opened EncodeFrame
  import opened EncodeReady
  import opened EncodeMeaning
  import E = Encoder
  import S = SharedGraph

  /** struct sample { int count; int *values; char *name; } */
  function SampleFormat(): Format {
    Format(24, true, false,
           [Field(0, 4, Simple(4)), Field(8, 4, Pointer(Array(Control(0), Simple(4)))), Field(16, 8, Text)], 0)
  }

  function One(): (sch: Schema)
    ensures |sch| == 1 && sch[0] == SampleFormat()
  {
    [SampleFormat()]
  }

  /** Eight bytes, the record at 8, three values at 32, the string "hi" at 44. */
  function SampleMemory(): (mem: seq<byte>)
    ensures |mem| == 47
  {
    Eight(0) + [3, 0, 0, 0, 9, 9, 9, 9] + Eight(32) + Eight(44) + [1, 0, 0, 0, 2, 0, 0, 0, 3, 0, 0, 0] + [104, 105, 0]
  }

  function Eight(b: byte): (s: seq<byte>)
    ensures |s| == 8
  {
    [b, 0, 0, 0, 0, 0, 0, 0]
  }

  function SampleId(): seq<byte> {
    [2, 0, 0, 20, 11, 12, 13, 14, 15, 16, 17, 18]
  }

  lemma OneValid()
    ensures ValidSchema(One())
  {
    var sch := One();
    var fs := sch[0].fields;
    assert ValidType(sch, 0, Array(Control(0), Simple(4)), false);
    forall i | 0 <= i < 3
      ensures Extent(sch, fs[i]) == if i == 0 then 4 else 8
    {
      ElemSizeIs(sch, fs[i].typ, []);
    }
    assert ValidFormat(sch, 0);
  }

  lemma EightIs(b: byte)
    ensures ToLE(b, 8) == Eight(b) && FromLE(Eight(b)) == b
  {
    assert ToLE(b / 256, 4) == [0, 0, 0, 0];
    assert ToLE(0, 7) == [0, 0, 0] + ToLE(0, 4);
    assert b / 256 == 0 && b % 256 == b;
    assert ToLE(b, 8) == [b] + ToLE(0, 7);
    Pow64Is();
    FromToLE(b, 8);
  }

  lemma LoadEight(mem: seq<byte>, a: nat, b: byte)
    requires a + 8 <= |mem| && mem[a..a + 8] == Eight(b)
    ensures LoadPtr(mem, a) == b
  {
    EightIs(b);
  }

  lemma SampleParts()
    ensures var mem := SampleMemory();
      && mem[8..16] == [3, 0, 0, 0, 9, 9, 9, 9] && mem[16..24] == Eight(32) && mem[24..32] == Eight(44)
      && mem[32..44] == [1, 0, 0, 0, 2, 0, 0, 0, 3, 0, 0, 0] && mem[44..] == [104, 105, 0]
  {
  }

  lemma SampleLoads()
    ensures var mem := SampleMemory();
      && LoadPtr(mem, 16) == 32 && LoadPtr(mem, 24) == 44 && ReadCount(mem, 8, 4) == 3 && StrLen(mem, 44) == 2
      && Load(mem, 8, 24) == [3, 0, 0, 0, 9, 9, 9, 9] + Eight(32) + Eight(44)
      && Load(mem, 32, 12) == [1, 0, 0, 0, 2, 0, 0, 0, 3, 0, 0, 0] && Load(mem, 44, 3) == [104, 105, 0]
  {
    var mem := SampleMemory();
    SampleParts();
    hide SampleMemory, Eight, LoadPtr, FromLE, StrLen;
    LoadEight(mem, 16, 32);
    LoadEight(mem, 24, 44);
    assert mem[8..12] == mem[8..16][..4] == [3, 0, 0, 0];
    ThreeIs();
    assert mem[8..32] == mem[8..16] + mem[16..24] + mem[24..32];
    assert mem[44..44 + 3] == mem[44..];
    TwoLong(mem, 44);
  }

  lemma TwoLong(mem: seq<byte>, p: nat)
    requires p + 3 <= |mem| && mem[p..p + 3] == [104, 105, 0]
    ensures StrLen(mem, p) == 2
  {
    assert mem[p] == mem[p..p + 3][0] && mem[p + 1] == mem[p..p + 3][1] && mem[p + 2] == mem[p..p + 3][2];
    assert StrLen(mem, p + 2) == 0;
    assert StrLen(mem, p + 1) == 1;
  }

  lemma ThreeIs()
    ensures FromLE([3, 0, 0, 0]) == 3
  {
    assert [3, 0, 0, 0][1..] == [0, 0, 0] && [0, 0, 0][1..] == [0, 0] && [0, 0][1..] == [0] && [0][1..] == [];
  }

  lemma SampleSlots()
    requires ValidSchema(One())
    ensures TargetSlots(One(), SampleMemory(), 8, Record(0)) ==
      [Slot(8, 32, false, Data(0, Array(Static(3), Simple(4)))), Slot(16, 44, false, CString)]
  {
    hide LoadPtr, ReadCount, SampleMemory;
    var sch, mem := One(), SampleMemory();
    SampleLoads();
    var c := Counts(sch, 0, mem, 8);
    assert c[0] == 3;
    assert Aim(sch, 0, Array(Control(0), Simple(4)), c) == Data(0, Array(Static(3), Simple(4))) by {
      assert DimSize(Control(0), c) == 3 && Resolve(Simple(4), c) == Simple(4);
    }
    assert FieldSlots(sch, mem, 0, 3, 8, 0) == [];
    assert FieldSlots(sch, mem, 0, 2, 8, 0) == [Slot(16, 44, false, CString)];
    assert FieldSlots(sch, mem, 0, 1, 8, 0) == [Slot(8, 32, false, Data(0, Array(Static(3), Simple(4))))] + FieldSlots(sch, mem, 0, 2, 8, 0);
  }

  /** A copied object comes at the end. */
  lemma PlaceAdds(mem: seq<byte>, slot: Slot, s: EState, data: seq<byte>)
    requires s.copyAll && |data| == TargetSize(One(), mem, slot.ptr, slot.target) && |data| > 0
    requires data == Load(mem, slot.ptr, |data|) && s.outLen == |s.buf| && (slot.target.CString? || s.outLen % 8 == 0)
    ensures var r := Place(One(), mem, slot, s);
      r.buf == s.buf + data && r.outLen == |r.buf| && r.delta == s.delta && r.copyAll && r.log[|s.log|].off == s.outLen
  {
    hide TargetSize, TargetFlat, Load, Store;
    StoreEnd(s.buf, Fill(|data|, s.junk), data);
  }

  lemma StoreEnd(buf: seq<byte>, junk: seq<byte>, data: seq<byte>)
    requires |junk| == |data|
    ensures Store(buf + junk, |buf|, data) == buf + data
  {
    assert (buf + junk)[..|buf|] == buf && (buf + junk)[|buf| + |data|..] == [];
  }

  /** What one pointer of the sample adds: the object at the end, and its offset. */
  lemma Adds(mem: seq<byte>, slot: Slot, loc: nat, s: EState, data: seq<byte>)
    requires ValidSchema(One()) && ValidSlot(One(), slot) && s.delta <= s.outLen && s.copyAll && !slot.tracked && slot.ptr != 0
    requires TargetFlat(One(), slot.target) && |data| == TargetSize(One(), mem, slot.ptr, slot.target) && |data| > 0
    requires data == Load(mem, slot.ptr, |data|) && s.outLen == |s.buf| && (slot.target.CString? || s.outLen % 8 == 0)
    requires loc + slot.rel + 8 <= |s.buf| && s.outLen - s.delta < 256
    ensures var r := EmitSlot(One(), mem, slot, loc, s);
      && r.outLen == s.outLen + |data| == |r.buf| && r.delta == s.delta && r.copyAll
      && r.buf == s.buf[..loc + slot.rel] + Eight(s.outLen - s.delta) + s.buf[loc + slot.rel + 8..] + data
  {
    hide ValidSchema, ValidSlot, TargetSize, TargetFlat, TargetSlots, Emit, Load, Follow, Find, AddrSet, Unseen, MaxRank, TargetRank;
    FollowAdds(mem, slot, loc, s, data);
  }

  lemma FollowAdds(mem: seq<byte>, slot: Slot, loc: nat, s: EState, data: seq<byte>)
    requires s.delta <= s.outLen && s.copyAll && !slot.tracked
    requires |data| == TargetSize(One(), mem, slot.ptr, slot.target) && |data| > 0
    requires data == Load(mem, slot.ptr, |data|) && s.outLen == |s.buf| && (slot.target.CString? || s.outLen % 8 == 0)
    requires loc + slot.rel + 8 <= |s.buf| && s.outLen - s.delta < 256
    ensures var r := Follow(One(), mem, slot, loc, s);
      && r.outLen == s.outLen + |data| == |r.buf| && r.delta == s.delta && r.copyAll
      && r.buf == s.buf[..loc + slot.rel] + Eight(s.outLen - s.delta) + s.buf[loc + slot.rel + 8..] + data
  {
    hide TargetSize, Load, Place, Store, Eight, SampleFormat, One, Pow256, TargetFlat, ToLE, FromLE;
    PlaceAdds(mem, slot, s, data);
    EightIs(s.outLen - s.delta);
    StoreInside(s.buf, data, loc + slot.rel, ToLE(s.outLen - s.delta, 8));
  }

  lemma StoreInside(buf: seq<byte>, data: seq<byte>, at: nat, x: seq<byte>)
    requires at + |x| <= |buf|
    ensures Store(buf + data, at, x) == buf[..at] + x + buf[at + |x|..] + data
  {
    assert (buf + data)[..at] == buf[..at] && (buf + data)[at + |x|..] == buf[at + |x|..] + data;
  }

  /** Before the walk: header and record. */
  lemma SampleStart(junk: byte)
    ensures var s := AfterStart(One(), 0, SampleId(), SampleMemory(), 8, true, junk);
      && s.delta == 24 && s.outLen == 48 == |s.buf| && s.copyAll && s.addrs == []
      && s.buf == SampleId() + Fill(12, 0) + [3, 0, 0, 0, 9, 9, 9, 9] + Eight(32) + Eight(44)
  {
    hide SampleMemory, SampleId, Eight, AfterStart;
    StartShape(One(), 0, SampleId(), SampleMemory(), 8, true, junk);
    SampleLoads();
    var s := AfterStart(One(), 0, SampleId(), SampleMemory(), 8, true, junk);
    assert |SampleId()| == 12 by { IdLength(); }
    StartCopies(junk);
    StartBytes(s.buf, SampleId(), Eight(32), Eight(44));
  }

  lemma StartBytes(buf: seq<byte>, id: seq<byte>, v: seq<byte>, w: seq<byte>)
    requires |buf| == 48 && |id| == 12 && |v| == 8 && |w| == 8 && buf[..24] == Header(id, true)
    requires Load(buf, 24, 24) == [3, 0, 0, 0, 9, 9, 9, 9] + v + w
    ensures buf == id + Fill(12, 0) + [3, 0, 0, 0, 9, 9, 9, 9] + v + w
  {
    assert buf == buf[..24] + buf[24..48];
  }

  lemma StartCopies(junk: byte)
    ensures AfterStart(One(), 0, SampleId(), SampleMemory(), 8, true, junk).copyAll
  {
    hide SampleMemory, SampleId, Header, HeaderSize;
  }

  lemma IdLength()
    ensures |SampleId()| == 12
  {
  }

  /** ID, length, padding, record with offsets, values, string. */
  method KnownMessage(junk: byte) returns (msg: seq<byte>, size: nat)
    ensures size == 63 && |msg| == 63
    ensures msg[..24] == [2, 0, 0, 20, 11, 12, 13, 14, 15, 16, 17, 18] + [39, 0, 0, 0, 0, 0, 0, 0] + [0, 0, 0, 0]
    ensures msg[24..48] == [3, 0, 0, 0, 9, 9, 9, 9] + [24, 0, 0, 0, 0, 0, 0, 0] + [36, 0, 0, 0, 0, 0, 0, 0]
    ensures msg[48..] == [1, 0, 0, 0, 2, 0, 0, 0, 3, 0, 0, 0] + [104, 105, 0]
  {
    OneValid();
    hide ValidSchema, Encode, SampleMemory;
    msg, size := E.FFSencode(One(), 0, SampleId(), SampleMemory(), 8, junk);
    SampleEncoded(junk);
  }

  lemma SampleEncoded(junk: byte)
    requires ValidSchema(One())
    ensures var r := Encode(One(), 0, SampleId(), SampleMemory(), 8, true, junk);
      && r.outLen == 63
      && r.buf == SampleId() + Eight(39) + Fill(4, 0) + [3, 0, 0, 0, 9, 9, 9, 9] + Eight(24) + Eight(36)
           + [1, 0, 0, 0, 2, 0, 0, 0, 3, 0, 0, 0] + [104, 105, 0]
  {
    hide ValidSchema, SampleMemory, SampleId, Eight, AfterStart, TargetSlots, EmitSlot, Emit, Load, StrLen, LoadPtr, TargetSize, TargetFlat;
    var sch, id, mem := One(), SampleId(), SampleMemory();
    var s := AfterStart(sch, 0, id, mem, 8, true, junk);
    var x, y := Slot(8, 32, false, Data(0, Array(Static(3), Simple(4)))), Slot(16, 44, false, CString);
    var r1, r2 := [1, 0, 0, 0, 2, 0, 0, 0, 3, 0, 0, 0], [104, 105, 0];
    IdLength();
    SampleStart(junk);
    SampleSlots();
    SampleLoads();
    SizesAre();
    SlotsValid(mem);
    var s1 := EmitSlot(sch, mem, x, 24, s);
    Adds(mem, x, 24, s, r1);
    PutThird(id, Fill(12, 0), [3, 0, 0, 0, 9, 9, 9, 9], Eight(32), Eight(44), Eight(24), r1, s.buf, s1.buf);
    var s2 := EmitSlot(sch, mem, y, 24, s1);
    Adds(mem, y, 24, s1, r2);
    PutFourth(id, Fill(12, 0), [3, 0, 0, 0, 9, 9, 9, 9], Eight(24), Eight(44), Eight(36), r1, r2, s1.buf, s2.buf);
    S.EmitTwo(sch, mem, x, y, 24, s);
    SampleLength(junk, s2);
  }

  lemma SizesAre()
    ensures var a := Data(0, Array(Static(3), Simple(4)));
      && TargetSize(One(), SampleMemory(), 32, a) == 12 && TargetFlat(One(), a) && TargetFlat(One(), CString)
      && TargetSize(One(), SampleMemory(), 44, CString) == 3
  {
    hide SampleMemory, Load, LoadPtr;
    SampleLoads();
    assert ElemCount(Simple(4), []) == 1 && ElemType(Simple(4)) == Simple(4);
  }

  lemma SlotsValid(mem: seq<byte>)
    requires ValidSchema(One())
    ensures ValidSlots(One(), [Slot(8, 32, false, Data(0, Array(Static(3), Simple(4)))), Slot(16, 44, false, CString)])
  {
    assert ValidType(One(), 0, Array(Static(3), Simple(4)), false);
  }

  /** The third piece replaced, and one more at the end. */
  lemma PutThird(id: seq<byte>, z: seq<byte>, a: seq<byte>, b: seq<byte>, c: seq<byte>, v: seq<byte>, r: seq<byte>, s: seq<byte>, t: seq<byte>)
    requires |id| == 12 && |z| == 12 && |a| == 8 && |b| == 8 && |c| == 8 && |v| == 8
    requires s == id + z + a + b + c && t == s[..32] + v + s[40..] + r
    ensures t == id + z + a + v + c + r
  {
    assert s[..32] == id + z + a && s[40..] == c;
  }

  lemma PutFourth(id: seq<byte>, z: seq<byte>, a: seq<byte>, b: seq<byte>, c: seq<byte>, v: seq<byte>, r: seq<byte>, q: seq<byte>, s: seq<byte>, t: seq<byte>)
    requires |id| == 12 && |z| == 12 && |a| == 8 && |b| == 8 && |c| == 8 && |v| == 8
    requires s == id + z + a + b + c + r && t == s[..40] + v + s[48..] + q
    ensures t == id + z + a + b + v + r + q
  {
    assert s[..40] == id + z + a + b && s[48..] == r;
  }

  lemma SampleLength(junk: byte, e: EState)
    requires ValidSchema(One())
    requires var s := AfterStart(One(), 0, SampleId(), SampleMemory(), 8, true, junk);
      s.delta <= s.outLen && e == Emit(One(), SampleMemory(), TargetSlots(One(), SampleMemory(), 8, Record(0)), 24, s)
    requires e.outLen == 63 && e.delta == 24 && |e.buf| == 63 && |SampleId()| == 12
    requires e.buf[..24] == SampleId() + Fill(12, 0)
    ensures var r := Encode(One(), 0, SampleId(), SampleMemory(), 8, true, junk);
      r.outLen == 63 && r.buf == SampleId() + Eight(39) + Fill(4, 0) + e.buf[24..]
  {
    hide ValidSchema, SampleMemory, SampleId, Eight, AfterStart, TargetSlots, Emit, LoadPtr, Header, HeaderSize;
    StartShape(One(), 0, SampleId(), SampleMemory(), 8, true, junk);
    EightIs(39);
    hide ToLE, FromLE;
    PutLength(SampleId(), Fill(12, 0), e.buf, Eight(39));
  }

  lemma PutLength(id: seq<byte>, z: seq<byte>, buf: seq<byte>, v: seq<byte>)
    requires |id| == 12 && |z| == 12 && |v| == 8 && |buf| == 63 && buf[..24] == id + z
    ensures Store(buf, 12, v) == id + v + z[8..] + buf[24..]
  {
    assert buf[..12] == buf[..24][..12] == id && buf[20..] == buf[..24][20..] + buf[24..] && (id + z)[20..] == z[8..];
  }
}
