/** A shared block in a size-changing conversion: the ring of two nodes and the array that the
    list and a node both point to, when the array's elements change size. */
module SharedResize {
  import opened Bytes
  import opened Formats
  import opened ObjectGraph
  import opened EncodeSpec
  import opened EncodeFrame
  import opened EncodeReady
  import opened EncodeMeaning
  import opened DecodeSpec
  import opened RoundTrip
  import opened SharedGraph
  import opened EncodedVisits
  import R = Resize
  import Revisit

  /** A record being encoded: where it is, and the message's ID, filling and address. */
  datatype Setup = Setup(mem: seq<byte>, id: seq<byte>, r: nat, d: nat, a: nat, b: nat, junk: byte, base: nat)

  ghost predicate Ready(p: Setup) {
    Ring(p.mem, p.r, p.d, p.a, p.b) && p.base % 8 == 0 && p.base + |p.id| + 4 * Word4(p.mem, p.a) + 200 < POW64
  }

  function Count(p: Setup): nat {
    Word4(p.mem, p.a)
  }

  ghost function Nodes(p: Setup): set<Node> {
    RingNodes(Count(p), p.r, p.d, p.a, p.b)
  }

  function Encoded(p: Setup): EState
    requires ValidSchema(Both())
  {
    Encode(Both(), 1, p.id, p.mem, p.r, true, p.junk)
  }

  function Msg(p: Setup): Message
    requires ValidSchema(Both())
  {
    MessageOf(Both(), 1, p.id, p.mem, p.r, p.junk, p.base)
  }

  // ----- the array is placed first

  lemma FollowLogs(sch: Schema, mem: seq<byte>, slot: Slot, loc: nat, s: EState)
    requires s.delta <= s.outLen
    ensures var b := Follow(sch, mem, slot, loc, s).log[|s.log|]; b.src == slot.ptr && b.target == slot.target
  {
    hide StorePtr, TargetSize, TargetFlat, Load;
    PlaceShape(sch, mem, slot, s);
  }

  lemma ArrayFirst(p: Setup)
    requires ValidSchema(Both()) && Ready(p)
    ensures var log := Encoded(p).log; |log| > 1 && log[1].src == p.d && log[1].target == ArrayOf(Count(p))
  {
    hide LoadPtr, ReadCount, FieldSlots, ValidSchema, Emit, EmitSlot, Find, AddrSet, TargetSize, TargetFlat, StorePtr, Follow, AfterStart, Graph, RingNodes, Header;
    RingEncodable(p.mem, p.id, p.r, p.d, p.a, p.b, p.junk, p.base);
    StartEmitting(Both(), 1, p.id, p.mem, p.r, Nodes(p), p.junk, p.base);
    StartShape(Both(), 1, p.id, p.mem, p.r, true, p.junk);
    var s := AfterStart(Both(), 1, p.id, p.mem, p.r, true, p.junk);
    var h := HeaderSize(|p.id|, true);
    assert s.addrs == [Entry(p.r, h)];
    OneAddress(p.r, h);
    ListSlots(p.mem, p.r);
    var x, y := Slot(8, p.d, true, ArrayOf(Count(p))), Slot(16, p.a, true, ANode());
    EmitTwo(Both(), p.mem, x, y, h, s);
    SizesAre(p.mem, p.d, Count(p));
    FirstNew(p.mem, x, s.addrs, p.r);
    SlotAdds(Both(), p.mem, x, h, s);
    FollowLogs(Both(), p.mem, x, h, s);
    var s1 := EmitSlot(Both(), p.mem, x, h, s);
    var s2 := EmitSlot(Both(), p.mem, y, h, s1);
    assert s1.log <= s2.log;
    assert Walked(Both(), 1, p.id, p.mem, p.r, p.junk) == s2;
  }

  lemma OneAddress(r: nat, h: nat)
    ensures AddrSet([Entry(r, h)]) == {r}
  {
    AddrSetLast([Entry(r, h)]);
    assert [Entry(r, h)][..0] == [];
  }

  lemma FirstNew(mem: seq<byte>, x: Slot, addrs: seq<Entry>, r: nat)
    requires AddrSet(addrs) == {r} && x.ptr != 0 && x.ptr != r && TargetSize(Both(), mem, x.ptr, x.target) > 0
    ensures Decide(Both(), mem, x, addrs).New?
  {
  }

  // ----- what the message holds

  /** The slots of an object in the message: those of memory, each holding the offset of the
      object it leads to. */
  lemma ImageSlots(p: Setup, k: nat)
    requires ValidSchema(Both()) && Ready(p) && k < |Encoded(p).log|
    ensures var e := Encoded(p); var b := e.log[k];
      && ValidTarget(Both(), b.target)
      && var x, y := TargetSlots(Both(), p.mem, b.src, b.target), TargetSlots(Both(), e.buf, b.off, b.target);
         && SameShape(y, x) && PtrsFrom(e.buf, y, b.off)
         && forall i :: 0 <= i < |x| ==> SlotSet(Both(), p.mem, e.buf, e.log, e.delta, x[i], b.off)
  {
    hide ValidSchema, Encode, Graph, RingNodes, TargetSlots, TargetSize, ValidTarget, SlotSet, HeaderSize;
    RingEncodable(p.mem, p.id, p.r, p.d, p.a, p.b, p.junk, p.base);
    MessageBlocks(Both(), 1, p.id, p.mem, p.r, Nodes(p), p.junk, p.base);
    var e := Encoded(p);
    var b := e.log[k];
    assert BlockOk(Both(), p.mem, e.buf, e.log, e.delta, b) && BlockShape(Both(), p.mem, e, k, Nodes(p));
    BlockKept(Both(), p.mem, e.buf, e.log, e.delta, b);
    TargetShape(Both(), e.buf, b.off, p.mem, b.src, b.target);
    TargetSlotsPtrs(Both(), e.buf, b.off, b.target);
  }

  lemma TrackedOnce(sch: Schema, mem: seq<byte>, root: nat, nodes: set<Node>, e: EState, k: nat, l: nat)
    requires LogOk(sch, mem, root, nodes, e) && 0 < k < |e.log| && 0 < l < |e.log|
    requires Tracked(sch, e.log[k].target) && Tracked(sch, e.log[l].target) && e.log[k].src == e.log[l].src
    ensures k == l
  {
    hide TargetSize, Tracked, AddrSet;
    assert BlockShape(sch, mem, e, k, nodes) && BlockShape(sch, mem, e, l, nodes);
  }

  lemma LaterAfter(sch: Schema, mem: seq<byte>, root: nat, nodes: set<Node>, e: EState, k: nat, l: nat)
    requires LogOk(sch, mem, root, nodes, e) && 0 < k < l < |e.log|
    ensures e.delta < e.log[k].off < e.log[l].off
  {
    hide TargetSize, Tracked, AddrSet;
    assert BlockShape(sch, mem, e, k, nodes) && BlockShape(sch, mem, e, l, nodes);
  }

  lemma BothTracked(n: nat)
    ensures Tracked(Both(), ArrayOf(n)) && Tracked(Both(), ANode())
  {
  }

  /** A slot with the array's address leads to the first object of the log, one with the node's
      to a later one. */
  lemma SlotLeads(p: Setup, slot: Slot, loc: nat) returns (k: nat)
    requires ValidSchema(Both()) && Ready(p) && SlotSet(Both(), p.mem, Encoded(p).buf, Encoded(p).log, Encoded(p).delta, slot, loc)
    requires (slot.ptr == p.d && slot.target == ArrayOf(Count(p))) || (slot.ptr == p.a && slot.target == ANode())
    ensures var e := Encoded(p);
      && |e.log| > 1 && 0 < k < |e.log| && PointsTo(e.log[k], slot) && LoadPtr(e.buf, loc + slot.rel) + e.delta == e.log[k].off
      && if slot.ptr == p.d then k == 1 else k > 1 && e.log[k].off > e.log[1].off
  {
    hide ValidSchema, Encode, Graph, RingNodes, TargetSize, LoadPtr, HeaderSize, LogOk, BlocksOk, Both, ReadCount;
    RingEncodableAt(p);
    MessageBlocks(Both(), 1, p.id, p.mem, p.r, Nodes(p), p.junk, p.base);
    ArrayFirst(p);
    SizesAre(p.mem, slot.ptr, Count(p));
    BothTracked(Count(p));
    var e := Encoded(p);
    assert Leads(Both(), p.mem, slot);
    k :| 0 < k < |e.log| && PointsTo(e.log[k], slot) && LoadPtr(e.buf, loc + slot.rel) + e.delta == e.log[k].off;
    if slot.ptr == p.d {
      TrackedOnce(Both(), p.mem, p.r, Nodes(p), e, k, 1);
    } else {
      LaterAfter(Both(), p.mem, p.r, Nodes(p), e, 1, k);
    }
  }

  /** The root record, the array at offset x and the node at offset y of a message. */
  ghost predicate Laid(m: Message, n: nat, x: nat, y: nat)
    requires ValidSchema(Both())
  {
    && 0 < x < y
    && TargetSlots(Both(), m.m, m.delta, Record(1)) == [Slot(8, x, true, ArrayOf(n)), Slot(16, y, true, ANode())]
    && var node := TargetSlots(Both(), m.m, m.delta + y, ANode());
       |node| == 2 && node[0] == Slot(8, x, true, ArrayOf(n))
  }

  lemma RingLaid(p: Setup) returns (x: nat, y: nat)
    requires ValidSchema(Both()) && Ready(p)
    ensures Laid(Msg(p), Count(p), x, y)
    ensures Msg(p).delta == Encoded(p).delta && |Encoded(p).log| > 1 && x + Msg(p).delta == Encoded(p).log[1].off
  {
    hide ValidSchema, Encode, Graph, RingNodes, FieldSlots, TypeSlots, LoadPtr, ReadCount, HeaderSize, SlotSet, AddrSet, TargetSize;
    RingEncodable(p.mem, p.id, p.r, p.d, p.a, p.b, p.junk, p.base);
    MessageBlocks(Both(), 1, p.id, p.mem, p.r, Nodes(p), p.junk, p.base);
    ArrayFirst(p);
    var e := Encoded(p);
    var h := e.delta;
    assert BlockShape(Both(), p.mem, e, 1, Nodes(p));
    x := e.log[1].off - h;
    ListSlots(p.mem, p.r);
    ImageSlots(p, 0);
    var s := TargetSlots(Both(), p.mem, p.r, Record(1));
    var _ := SlotLeads(p, s[0], h);
    var k := SlotLeads(p, s[1], h);
    y := e.log[k].off - h;
    var t := TargetSlots(Both(), e.buf, h, Record(1));
    assert t[0].ptr == LoadPtr(e.buf, h + t[0].rel) && t[1].ptr == LoadPtr(e.buf, h + t[1].rel);
    assert t == [Slot(8, x, true, ArrayOf(Count(p))), Slot(16, y, true, ANode())];
    NodeSlots(p.mem, p.a);
    NodeTargetSlots(p.mem, p.a);
    ImageSlots(p, k);
    var u := TargetSlots(Both(), p.mem, p.a, ANode());
    var v := TargetSlots(Both(), e.buf, h + y, ANode());
    var _ := SlotLeads(p, u[0], h + y);
    assert v[0].ptr == LoadPtr(e.buf, h + y + v[0].rel);
  }

  // ----- what the conversion meets

  lemma FirstSteps(m: Message, dest: Type -> nat, n: nat, x: nat, y: nat)
    requires ValidSchema(Both()) && Laid(m, n, x, y)
    ensures var ss := Revisit.Trace(AllMet(Both(), 1, m, dest), 0);
      && |ss| >= 3 && !ss[0].text && !ss[1].text && !ss[2].text && ss[0].offset == ss[2].offset == x
      && ss[0].growth == n * (dest(Simple(4)) - 4) && ss[1].growth == 0
  {
    hide ValidSchema, TargetSlots, TargetSize;
    var slots := TargetSlots(Both(), m.m, m.delta, Record(1));
    var v := MeetSlot(Both(), m, dest, slots[0], 0);
    NoArraySlots(m.m, m.delta + x, n);
    assert Meet(Both(), m, dest, [], x) == [];
    var t := Array(Static(n), Simple(4));
    assert ElemCount(Simple(4), []) == 1 && ElemType(Simple(4)) == Simple(4);
    assert ElemCount(t, []) == n * 1 && ElemType(t) == Simple(4);
    assert v == R.Visit(x, R.Many(n, 4, dest(Simple(4)) - 4, []));
    var w := MeetSlot(Both(), m, dest, slots[1], x);
    NodeMet(m, dest, n, x, y);
    var rest := slots[1..];
    assert rest == [slots[1]] && rest[1..] == [];
    assert R.CurAll([], x) == x;
    assert R.CurAfter(v, 0) == x;
    assert Meet(Both(), m, dest, rest, x) == [w] + Meet(Both(), m, dest, [], R.CurAfter(w, x));
    assert Meet(Both(), m, dest, [], R.CurAfter(w, x)) == [];
    var vs := AllMet(Both(), 1, m, dest);
    assert vs == [v, w];
    TraceTwo(v, w);
  }

  lemma TraceTwo(v: R.Visit, w: R.Visit)
    ensures Revisit.Trace([v, w], 0) == Revisit.Steps(v, 0) + Revisit.Steps(w, R.CurAfter(v, 0))
  {
    hide Revisit.Steps, R.CurAfter;
    assert [v, w][1..] == [w];
    TraceOne(w, R.CurAfter(v, 0));
  }

  /** The node met first: its steps begin with the node and the array again. */
  lemma NodeMet(m: Message, dest: Type -> nat, n: nat, x: nat, y: nat)
    requires ValidSchema(Both()) && Laid(m, n, x, y)
    ensures var w := MeetSlot(Both(), m, dest, TargetSlots(Both(), m.m, m.delta, Record(1))[1], x);
      var ss := Revisit.Steps(w, x);
      |ss| >= 2 && !ss[0].text && ss[0].growth == 0 && !ss[1].text && ss[1].offset == x
  {
    hide ValidSchema, TargetSlots, TargetSize, R.CurAfter;
    var node := TargetSlots(Both(), m.m, m.delta + y, ANode());
    var inside := Meet(Both(), m, dest, node, y);
    var again := MeetSlot(Both(), m, dest, node[0], y);
    assert inside[0] == again && again.offset == x && !again.target.Text?;
    assert Revisit.Steps(again, y) == [Revisit.Step(x, false, false, 0, 0)];
    assert Revisit.Trace(inside, y) == Revisit.Steps(again, y) + Revisit.Trace(inside[1..], R.CurAfter(again, y));
  }

  /** Main result. In the message of such a ring the list's pointer to the array, met first, and
      the node's, met third, are given one address if and only if the array keeps its size or
      shrinks by less than 8 bytes in all. */
  lemma RingResized(p: Setup, dest: Type -> nat, to: int, adjust: int)
    requires ValidSchema(Both()) && Ready(p)
    ensures var ptrs := R.Walk(AllMet(Both(), 1, Msg(p), dest), to, R.Initial(adjust)).ptrs;
      && |ptrs| >= 3 && |Encoded(p).log| > 1
      && ptrs[0].offset == ptrs[2].offset == Encoded(p).log[1].off - Encoded(p).delta && Encoded(p).log[1].src == p.d
      && (ptrs[2].dest == ptrs[0].dest <==> -8 < Count(p) * (dest(Simple(4)) - 4) <= 0)
  {
    hide ValidSchema, Encode, Graph, RingNodes, Meet, R.Walk, Revisit.Trace, HeaderSize, Ring;
    ArrayFirst(p);
    var x, y := RingLaid(p);
    FirstSteps(Msg(p), dest, Count(p), x, y);
    RingEncodableAt(p);
    EncodedShared(Both(), 1, p.id, p.mem, p.r, Nodes(p), p.junk, p.base, dest, to, adjust, 0, 2);
    var ss := Revisit.Trace(AllMet(Both(), 1, Msg(p), dest), 0);
    ClimbOne(ss, Count(p) * (dest(Simple(4)) - 4));
  }

  lemma RingEncodableAt(p: Setup)
    requires Ready(p)
    ensures Encodable(Both(), 1, p.id, p.mem, p.r, Nodes(p), p.junk, p.base)
  {
    RingEncodable(p.mem, p.id, p.r, p.d, p.a, p.b, p.junk, p.base);
  }

  lemma ClimbOne(ss: seq<Revisit.Step>, g: int)
    requires |ss| >= 3 && !ss[1].text && ss[1].growth == 0
    ensures -8 < Revisit.Climb(ss[1..2], g) <= 0 <==> -8 < g <= 0
  {
    var one := ss[1..2];
    assert one == [ss[1]] && one[1..] == [];
    assert Revisit.Climb(one[1..], g + R.Padding(g) + 0) == g + R.Padding(g);
  }

  /** So when the elements grow, the node's array is not where the list's is. */
  lemma RingSplits(p: Setup, dest: Type -> nat, to: int, adjust: int)
    requires ValidSchema(Both()) && Ready(p) && dest(Simple(4)) > 4
    ensures var ptrs := R.Walk(AllMet(Both(), 1, Msg(p), dest), to, R.Initial(adjust)).ptrs;
      |ptrs| >= 3 && ptrs[0].offset == ptrs[2].offset && ptrs[0].dest != ptrs[2].dest
  {
    hide ValidSchema, Encode, Meet, R.Walk, HeaderSize;
    RingResized(p, dest, to, adjust);
    Grows(Count(p), dest(Simple(4)) - 4);
  }

  lemma Grows(n: nat, g: int)
    requires n > 0 && g > 0
    ensures n * g > 0
  {
  }
}
