/** A graph the round trip covers: a ring of two records behind a record of another format,
    and an array both formats point to, each with a count field of its own. */
module SharedGraph {
  import opened Bytes
  import opened Formats
  import opened ObjectGraph
  import opened EncodeSpec
  import opened EncodeFrame
  import opened EncodeReady
  import opened EncodeMeaning
  import opened RoundTrip

  /** struct node { int count; int *data; node *next; } */
  function NodeFormat(): Format {
    Format(24, true, true,
           [Field(0, 4, Simple(4)), Field(8, 4, Pointer(Array(Control(0), Simple(4)))), Field(16, 24, Pointer(Subformat(0)))], 0)
  }

  /** struct list { int tag; int size; int *items; node *first; } */
  function ListFormat(): Format {
    Format(24, true, true,
           [Field(0, 4, Simple(4)), Field(4, 4, Simple(4)), Field(8, 4, Pointer(Array(Control(1), Simple(4)))),
            Field(16, 24, Pointer(Subformat(0)))], 0)
  }

  function Both(): (sch: Schema)
    ensures |sch| == 2 && sch[0] == NodeFormat() && sch[1] == ListFormat()
  {
    [NodeFormat(), ListFormat()]
  }

  lemma FieldValid(f: nat, i: nat)
    requires f < 2 && i < |Both()[f].fields|
    ensures var sch := Both(); var fd := sch[f].fields[i];
      ValidType(sch, f, fd.typ, true) && Extent(sch, fd) == (if fd.typ.Simple? then 4 else 8)
  {
    var sch := Both();
    assert ValidType(sch, f, Array(Control(f), Simple(4)), false);
    assert ValidType(sch, f, Subformat(0), false);
    ElemSizeIs(sch, sch[f].fields[i].typ, []);
  }

  lemma FormatValid(f: nat)
    requires f < 2
    ensures ValidFormat(Both(), f)
  {
    hide ValidType, Extent;
    var fs := Both()[f].fields;
    forall i | 0 <= i < |fs|
      ensures ValidType(Both(), f, fs[i].typ, true) && Extent(Both(), fs[i]) == if fs[i].typ.Simple? then 4 else 8
    {
      FieldValid(f, i);
    }
  }

  lemma BothValid()
    ensures ValidSchema(Both())
  {
    FormatValid(0);
    FormatValid(1);
  }

  function Word4(mem: seq<byte>, a: nat): nat {
    ReadCount(mem, a, 4)
  }

  function ArrayOf(n: nat): Target {
    Data(0, Array(Static(n), Simple(4)))
  }

  function ANode(): Target {
    Data(0, Subformat(0))
  }

  lemma HomeIsNode(f: nat)
    requires f < 2
    ensures Home(Both(), f) == 0
  {
  }

  lemma AimArray(f: nat, c: seq<nat>)
    requires f < 2 && f < |c|
    ensures ValidType(Both(), f, Array(Control(f), Simple(4)), false)
    ensures Aim(Both(), f, Array(Control(f), Simple(4)), c) == ArrayOf(c[f])
  {
    HomeIsNode(f);
    assert Resolve(Simple(4), c) == Simple(4);
    assert DimSize(Control(f), c) == c[f];
    assert Resolve(Array(Control(f), Simple(4)), c) == Array(Static(c[f]), Simple(4));
  }

  lemma NodeSlots(mem: seq<byte>, p: nat)
    requires ValidSchema(Both())
    ensures FieldSlots(Both(), mem, 0, 0, p, 0) ==
      [Slot(8, LoadPtr(mem, p + 8), true, ArrayOf(Word4(mem, p))), Slot(16, LoadPtr(mem, p + 16), true, ANode())]
  {
    hide LoadPtr, ReadCount;
    var sch := Both();
    HomeIsNode(0);
    var c := Counts(sch, 0, mem, p);
    assert c[0] == Word4(mem, p);
    AimArray(0, c);
    assert FieldSlots(sch, mem, 0, 3, p, 0) == [];
    assert FieldSlots(sch, mem, 0, 2, p, 0) == [Slot(16, LoadPtr(mem, p + 16), true, ANode())];
    assert FieldSlots(sch, mem, 0, 1, p, 0) ==
      [Slot(8, LoadPtr(mem, p + 8), true, ArrayOf(Word4(mem, p)))] + FieldSlots(sch, mem, 0, 2, p, 0);
  }

  lemma ListSlots(mem: seq<byte>, p: nat)
    requires ValidSchema(Both())
    ensures FieldSlots(Both(), mem, 1, 0, p, 0) ==
      [Slot(8, LoadPtr(mem, p + 8), true, ArrayOf(Word4(mem, p + 4))), Slot(16, LoadPtr(mem, p + 16), true, ANode())]
  {
    hide LoadPtr, ReadCount;
    var sch := Both();
    HomeIsNode(1);
    var c := Counts(sch, 1, mem, p);
    assert c[1] == Word4(mem, p + 4);
    AimArray(1, c);
    assert FieldSlots(sch, mem, 1, 4, p, 0) == [];
    assert FieldSlots(sch, mem, 1, 3, p, 0) == [Slot(16, LoadPtr(mem, p + 16), true, ANode())];
    assert FieldSlots(sch, mem, 1, 2, p, 0) ==
      [Slot(8, LoadPtr(mem, p + 8), true, ArrayOf(Word4(mem, p + 4)))] + FieldSlots(sch, mem, 1, 3, p, 0);
    assert FieldSlots(sch, mem, 1, 1, p, 0) == FieldSlots(sch, mem, 1, 2, p, 0);
  }

  lemma NoArraySlots(mem: seq<byte>, p: nat, n: nat)
    requires ValidSchema(Both())
    ensures TargetSlots(Both(), mem, p, ArrayOf(n)) == []
  {
    FlatTargetNoSlots(Both(), mem, p, ArrayOf(n));
  }

  /** A list at r whose items are the array at d, which node a also points to; a and b point
      to each other. Nothing is said of the tag, or of b's count. */
  ghost predicate Ring(mem: seq<byte>, r: nat, d: nat, a: nat, b: nat) {
    && r != 0 && d != 0 && a != 0 && b != 0 && r != d && r != a && r != b && d != a && d != b && a != b
    && LoadPtr(mem, r + 8) == d && LoadPtr(mem, r + 16) == a
    && LoadPtr(mem, a + 8) == d && LoadPtr(mem, a + 16) == b
    && LoadPtr(mem, b + 8) == 0 && LoadPtr(mem, b + 16) == a
    && Word4(mem, a) == Word4(mem, r + 4) > 0
  }

  ghost function RingNodes(n: nat, r: nat, d: nat, a: nat, b: nat): set<Node> {
    {(r, Record(1)), (d, ArrayOf(n)), (a, ANode()), (b, ANode())}
  }

  /** Two pointers into the node set, neither to the root. */
  lemma PairClosed(mem: seq<byte>, r: nat, x: Slot, y: Slot, nodes: set<Node>)
    requires x.ptr == 0 || ((x.ptr, x.target) in nodes && TargetSize(Both(), mem, x.ptr, x.target) != 0)
    requires y.ptr == 0 || ((y.ptr, y.target) in nodes && TargetSize(Both(), mem, y.ptr, y.target) != 0)
    ensures SlotsClosed(Both(), mem, r, [x, y], nodes)
  {
    hide TargetSize;
  }

  lemma RingClosed(mem: seq<byte>, r: nat, d: nat, a: nat, b: nat)
    requires ValidSchema(Both()) && Ring(mem, r, d, a, b)
    ensures var nodes := RingNodes(Word4(mem, a), r, d, a, b); forall n :: n in nodes ==> NodeClosed(Both(), mem, r, n, nodes)
  {
    hide LoadPtr, ReadCount, FieldSlots, ValidSchema, SlotsClosed, TypeSlots, Size;
    var sch, n := Both(), Word4(mem, a);
    var nodes := RingNodes(n, r, d, a, b);
    ListSlots(mem, r);
    NodeSlots(mem, a);
    NodeSlots(mem, b);
    NoArraySlots(mem, d, n);
    NodeTargetSlots(mem, a);
    NodeTargetSlots(mem, b);
    SizesAre(mem, d, n);
    SizesAre(mem, a, n);
    SizesAre(mem, b, n);
    var toD, toA, toB := Slot(8, d, true, ArrayOf(n)), Slot(16, a, true, ANode()), Slot(16, b, true, ANode());
    PairClosed(mem, r, toD, toA, nodes);
    PairClosed(mem, r, toD, toB, nodes);
    PairClosed(mem, r, Slot(8, 0, true, ArrayOf(Word4(mem, b))), toA, nodes);
    assert SlotsClosed(sch, mem, r, [], nodes) by { NoneClosed(mem, r, nodes); }
    TargetsValid(n);
  }

  lemma NoneClosed(mem: seq<byte>, r: nat, nodes: set<Node>)
    ensures SlotsClosed(Both(), mem, r, [], nodes)
  {
  }

  lemma TargetsValid(n: nat)
    ensures ValidTarget(Both(), ArrayOf(n)) && ValidTarget(Both(), ANode()) && ValidTarget(Both(), Record(1))
  {
  }

  lemma RingGraph(mem: seq<byte>, r: nat, d: nat, a: nat, b: nat)
    requires ValidSchema(Both()) && Ring(mem, r, d, a, b)
    ensures Graph(Both(), mem, r, 1, RingNodes(Word4(mem, a), r, d, a, b))
  {
    hide NodeClosed, LoadPtr, ReadCount;
    RingClosed(mem, r, d, a, b);
  }

  // ----- the message is small

  /** One pointer: what it adds to the message and to the address list. */
  lemma SlotAdds(sch: Schema, mem: seq<byte>, slot: Slot, loc: nat, s: EState)
    requires ValidSchema(sch) && ValidSlot(sch, slot) && s.delta <= s.outLen
    ensures !Decide(sch, mem, slot, s.addrs).New? ==>
      EmitSlot(sch, mem, slot, loc, s).outLen == s.outLen && EmitSlot(sch, mem, slot, loc, s).addrs == s.addrs
    ensures Decide(sch, mem, slot, s.addrs).New? ==>
      var r := Follow(sch, mem, slot, loc, s);
      && r.outLen <= s.outLen + 7 + TargetSize(sch, mem, slot.ptr, slot.target)
      && (slot.tracked ==> AddrSet(r.addrs) == AddrSet(s.addrs) + {slot.ptr})
      && EmitSlot(sch, mem, slot, loc, s) ==
           if TargetFlat(sch, slot.target) then r
           else Emit(sch, mem, TargetSlots(sch, mem, slot.ptr, slot.target), r.log[|s.log|].tmp, r)
  {
    hide ValidSchema, TargetSize, TargetFlat, TargetSlots, Find, AddrSet, Emit, StorePtr, Load, ValidSlot;
    if Decide(sch, mem, slot, s.addrs).New? {
      var r := Follow(sch, mem, slot, loc, s);
      if slot.tracked {
        AddrSetLast(r.addrs);
        assert r.addrs[..|s.addrs|] == s.addrs;
      }
    }
  }

  lemma EmitTwo(sch: Schema, mem: seq<byte>, x: Slot, y: Slot, loc: nat, s: EState)
    requires ValidSchema(sch) && ValidSlots(sch, [x, y]) && s.delta <= s.outLen
    ensures ValidSlot(sch, x) && ValidSlot(sch, y)
    ensures Emit(sch, mem, [x, y], loc, s) == EmitSlot(sch, mem, y, loc, EmitSlot(sch, mem, x, loc, s))
  {
    hide ValidSchema, ValidSlot, EmitSlot;
    assert [x, y][0] == x && [x, y][1] == y && [x, y][1..] == [y];
    EmitOne(sch, mem, y, loc, EmitSlot(sch, mem, x, loc, s));
  }

  lemma SizesAre(mem: seq<byte>, p: nat, n: nat)
    ensures TargetSize(Both(), mem, p, ANode()) == 24 && TargetSize(Both(), mem, p, ArrayOf(n)) == n * 4
    ensures !TargetFlat(Both(), ANode()) && TargetFlat(Both(), ArrayOf(n))
  {
    var t := Array(Static(n), Simple(4));
    assert ElemCount(Simple(4), []) == 1 && ElemType(Simple(4)) == Simple(4);
    assert ElemCount(t, []) == n * 1 && ElemType(t) == Simple(4);
  }

  /** Node b, seen from node a: its two pointers add nothing. */
  lemma SecondAdds(mem: seq<byte>, r: nat, d: nat, a: nat, b: nat, loc: nat, s: EState)
    requires ValidSchema(Both()) && Ring(mem, r, d, a, b) && s.delta <= s.outLen && a in AddrSet(s.addrs)
    ensures Emit(Both(), mem, FieldSlots(Both(), mem, 0, 0, b, 0), loc, s).outLen == s.outLen
  {
    hide LoadPtr, ReadCount, FieldSlots, ValidSchema, Emit, EmitSlot, Find, AddrSet, TargetSize, StorePtr;
    NodeSlots(mem, b);
    var x, y := Slot(8, 0, true, ArrayOf(Word4(mem, b))), Slot(16, a, true, ANode());
    EmitTwo(Both(), mem, x, y, loc, s);
    SlotAdds(Both(), mem, x, loc, s);
    SlotAdds(Both(), mem, y, loc, EmitSlot(Both(), mem, x, loc, s));
  }

  /** Node a: its array is known already, node b is new. */
  lemma FirstAdds(mem: seq<byte>, r: nat, d: nat, a: nat, b: nat, loc: nat, s: EState)
    requires ValidSchema(Both()) && Ring(mem, r, d, a, b) && s.delta <= s.outLen && AddrSet(s.addrs) == {r, d, a}
    ensures Emit(Both(), mem, FieldSlots(Both(), mem, 0, 0, a, 0), loc, s).outLen <= s.outLen + 31
  {
    hide LoadPtr, ReadCount, FieldSlots, ValidSchema, Emit, EmitSlot, Find, AddrSet, TargetSize, TargetFlat, StorePtr, Follow;
    NodeSlots(mem, a);
    var x, y := Slot(8, d, true, ArrayOf(Word4(mem, a))), Slot(16, b, true, ANode());
    EmitTwo(Both(), mem, x, y, loc, s);
    SlotAdds(Both(), mem, x, loc, s);
    var s1 := EmitSlot(Both(), mem, x, loc, s);
    SlotAdds(Both(), mem, y, loc, s1);
    SizesAre(mem, b, 0);
    var s2 := Follow(Both(), mem, y, loc, s1);
    NodeTargetSlots(mem, b);
    SecondAdds(mem, r, d, a, b, s2.log[|s1.log|].tmp, s2);
  }

  lemma NodeTargetSlots(mem: seq<byte>, p: nat)
    requires ValidSchema(Both())
    ensures TargetSlots(Both(), mem, p, ANode()) == FieldSlots(Both(), mem, 0, 0, p, 0)
  {
  }

  lemma RingAdds(mem: seq<byte>, r: nat, d: nat, a: nat, b: nat, loc: nat, s: EState)
    requires ValidSchema(Both()) && Ring(mem, r, d, a, b) && s.delta <= s.outLen && AddrSet(s.addrs) == {r}
    ensures Emit(Both(), mem, FieldSlots(Both(), mem, 1, 0, r, 0), loc, s).outLen <= s.outLen + 4 * Word4(mem, a) + 69
  {
    hide LoadPtr, ReadCount, FieldSlots, ValidSchema, Emit, EmitSlot, Find, AddrSet, TargetSize, TargetFlat, StorePtr, Follow;
    ListSlots(mem, r);
    var n := Word4(mem, a);
    var x, y := Slot(8, d, true, ArrayOf(n)), Slot(16, a, true, ANode());
    EmitTwo(Both(), mem, x, y, loc, s);
    SizesAre(mem, d, n);
    SlotAdds(Both(), mem, x, loc, s);
    var s1 := EmitSlot(Both(), mem, x, loc, s);
    SlotAdds(Both(), mem, y, loc, s1);
    SizesAre(mem, a, 0);
    var s2 := Follow(Both(), mem, y, loc, s1);
    NodeTargetSlots(mem, a);
    FirstAdds(mem, r, d, a, b, s2.log[|s1.log|].tmp, s2);
  }

  /** The round trip covers every such memory, whatever the tag and the other count are. */
  lemma RingEncodable(mem: seq<byte>, id: seq<byte>, r: nat, d: nat, a: nat, b: nat, junk: byte, base: nat)
    requires Ring(mem, r, d, a, b) && base % 8 == 0 && base + |id| + 4 * Word4(mem, a) + 200 < POW64
    ensures Encodable(Both(), 1, id, mem, r, RingNodes(Word4(mem, a), r, d, a, b), junk, base)
  {
    hide LoadPtr, ReadCount, FieldSlots, ValidSchema, Emit, AfterStart, Graph, RingNodes, Header;
    BothValid();
    RingGraph(mem, r, d, a, b);
    StartShape(Both(), 1, id, mem, r, true, junk);
    var s := AfterStart(Both(), 1, id, mem, r, true, junk);
    assert s.addrs == [Entry(r, HeaderSize(|id|, true))];
    AddrSetLast(s.addrs);
    assert s.addrs[..0] == [];
    RingAdds(mem, r, d, a, b, s.log[0].tmp, s);
  }

  // ----- such a memory

  lemma ValueAt(pre: seq<byte>, v: nat, n: nat, post: seq<byte>)
    requires v < Pow256(n)
    ensures FromLE(Load(pre + ToLE(v, n) + post, |pre|, n)) == v
  {
    FromToLE(v, n);
    assert Load(pre + ToLE(v, n) + post, |pre|, n) == ToLE(v, n);
  }

  /** Eleven values of 4 or 8 bytes from address 8 on. */
  function Sample(tag: nat, other: nat): seq<byte> {
    Fill(8, 0)
    + (ToLE(tag, 4) + ToLE(1, 4) + ToLE(32, 8) + ToLE(40, 8))
    + Fill(8, 0)
    + (ToLE(1, 4) + Fill(4, 0) + ToLE(32, 8) + ToLE(64, 8))
    + (ToLE(other, 4) + Fill(4, 0) + ToLE(0, 8) + ToLE(40, 8))
  }

  lemma SampleFirst(tag: nat, other: nat)
    ensures var m := Sample(tag, other); Word4(m, 12) == 1 && LoadPtr(m, 16) == 32 && LoadPtr(m, 24) == 40
  {
    hide ToLE, FromLE, Fill;
    Pow64Is();
    assert Pow256(4) == 0x1_0000_0000;
    var m := Sample(tag, other);
    var z, x1, x2, p32, p40 := Fill(8, 0), ToLE(tag, 4), ToLE(1, 4), ToLE(32, 8), ToLE(40, 8);
    var rest := z + (ToLE(1, 4) + Fill(4, 0) + ToLE(32, 8) + ToLE(64, 8)) + (ToLE(other, 4) + Fill(4, 0) + ToLE(0, 8) + ToLE(40, 8));
    assert m == (z + x1) + x2 + (p32 + p40 + rest);
    ValueAt(z + x1, 1, 4, p32 + p40 + rest);
    assert m == (z + x1 + x2) + p32 + (p40 + rest);
    ValueAt(z + x1 + x2, 32, 8, p40 + rest);
    assert m == (z + x1 + x2 + p32) + p40 + rest;
    ValueAt(z + x1 + x2 + p32, 40, 8, rest);
  }

  lemma SampleSecond(tag: nat, other: nat)
    ensures var m := Sample(tag, other); Word4(m, 40) == 1 && LoadPtr(m, 48) == 32 && LoadPtr(m, 56) == 64
  {
    hide ToLE, FromLE, Fill;
    Pow64Is();
    assert Pow256(4) == 0x1_0000_0000;
    var m := Sample(tag, other);
    var front := Fill(8, 0) + (ToLE(tag, 4) + ToLE(1, 4) + ToLE(32, 8) + ToLE(40, 8)) + Fill(8, 0);
    var x2, g, p32, p64 := ToLE(1, 4), Fill(4, 0), ToLE(32, 8), ToLE(64, 8);
    var last := ToLE(other, 4) + Fill(4, 0) + ToLE(0, 8) + ToLE(40, 8);
    assert m == front + x2 + (g + p32 + p64 + last);
    ValueAt(front, 1, 4, g + p32 + p64 + last);
    assert m == (front + x2 + g) + p32 + (p64 + last);
    ValueAt(front + x2 + g, 32, 8, p64 + last);
    assert m == (front + x2 + g + p32) + p64 + last;
    ValueAt(front + x2 + g + p32, 64, 8, last);
  }

  lemma SampleThird(tag: nat, other: nat)
    ensures var m := Sample(tag, other); LoadPtr(m, 72) == 0 && LoadPtr(m, 80) == 40
  {
    hide ToLE, FromLE, Fill;
    Pow64Is();
    var m := Sample(tag, other);
    var front := Fill(8, 0) + (ToLE(tag, 4) + ToLE(1, 4) + ToLE(32, 8) + ToLE(40, 8)) + Fill(8, 0)
                 + (ToLE(1, 4) + Fill(4, 0) + ToLE(32, 8) + ToLE(64, 8));
    var o, g, p0, p40 := ToLE(other, 4), Fill(4, 0), ToLE(0, 8), ToLE(40, 8);
    assert m == (front + o + g) + p0 + p40;
    ValueAt(front + o + g, 0, 8, p40);
    assert m == (front + o + g + p0) + p40 + [];
    ValueAt(front + o + g + p0, 40, 8, []);
  }

  lemma SampleIs(tag: nat, other: nat)
    ensures Ring(Sample(tag, other), 8, 32, 40, 64)
  {
    hide Sample, ReadCount, LoadPtr;
    SampleFirst(tag, other);
    SampleSecond(tag, other);
    SampleThird(tag, other);
  }
}
