/** What a contiguous message means: every object of the graph is in it once per visit, as
    a copy of memory in which each pointer is the offset of the object it leads to. */
module EncodeMeaning {
  import opened Bytes
  import opened Formats
  import opened ObjectGraph
  import opened EncodeSpec
  import opened EncodeFrame

  predicate Tracked(sch: Schema, t: Target) {
    t.Data? && t.format < |sch| && sch[t.format].recursive
  }

  type Node = (nat, Target)

  /** Where a pointer leads, when it leads anywhere. */
  predicate Leads(sch: Schema, mem: seq<byte>, slot: Slot) {
    slot.ptr != 0 && TargetSize(sch, mem, slot.ptr, slot.target) != 0
  }

  /** Pointers stay inside the node set. A tracked pointer to nothing (an empty array) does
      not reuse the address of the root or of a tracked object. */
  ghost predicate SlotClosed(sch: Schema, mem: seq<byte>, root: nat, slot: Slot, nodes: set<Node>) {
    && (Leads(sch, mem, slot) ==> (slot.ptr, slot.target) in nodes)
    && (slot.tracked && slot.ptr != 0 && !Leads(sch, mem, slot) ==>
          slot.ptr != root && forall n :: n in nodes && Tracked(sch, n.1) ==> n.0 != slot.ptr)
  }

  ghost predicate SlotsClosed(sch: Schema, mem: seq<byte>, root: nat, slots: seq<Slot>, nodes: set<Node>) {
    forall i :: 0 <= i < |slots| ==> SlotClosed(sch, mem, root, slots[i], nodes)
  }

  ghost predicate NodeClosed(sch: Schema, mem: seq<byte>, root: nat, n: Node, nodes: set<Node>)
    requires ValidSchema(sch)
  {
    ValidTarget(sch, n.1) && SlotsClosed(sch, mem, root, TargetSlots(sch, mem, n.0, n.1), nodes)
  }

  /** A finite object graph: closed under pointers; an address whose sharing is tracked is
      always used at one type and extent, and is not the root record. */
  ghost predicate Graph(sch: Schema, mem: seq<byte>, root: nat, f: nat, nodes: set<Node>)
    requires ValidSchema(sch)
  {
    && (root, Record(f)) in nodes
    && (forall n :: n in nodes ==> NodeClosed(sch, mem, root, n, nodes))
    && (forall n, m :: n in nodes && m in nodes && Tracked(sch, n.1) && Tracked(sch, m.1) && n.0 == m.0 ==> n == m)
    && (forall n :: n in nodes && Tracked(sch, n.1) ==> n.0 != root)
  }

  /** History of the message so far: objects of the graph at increasing offsets, 8-aligned
      unless strings, each tracked address once and known to the address list. */
  ghost predicate LogOk(sch: Schema, mem: seq<byte>, root: nat, nodes: set<Node>, s: EState) {
    && |s.log| >= 1 && s.log[0].src == root && s.log[0].target.Record?
    && s.delta % 8 == 0 && s.delta < s.outLen
    && (forall k :: 0 <= k < |s.log| ==> BlockShape(sch, mem, s, k, nodes))
    && (forall k, l :: 0 <= k < l < |s.log| ==> s.log[k].off + s.log[k].size <= s.log[l].off)
    && (forall k, l :: 0 <= k < l < |s.log| && s.log[k].tracked && s.log[l].tracked ==> s.log[k].src != s.log[l].src)
  }

  ghost predicate BlockShape(sch: Schema, mem: seq<byte>, s: EState, k: nat, nodes: set<Node>)
    requires k < |s.log|
  {
    var b := s.log[k];
    && (b.src, b.target) in nodes
    && b.size == TargetSize(sch, mem, b.src, b.target)
    && b.off + b.size <= s.outLen && s.delta <= b.off
    && (k > 0 ==> b.size > 0 && s.delta < b.off && b.tracked == Tracked(sch, b.target) && !b.target.Record?)
    && (b.target.Data? ==> b.off % 8 == 0)
    && (b.tracked ==> k > 0 && b.src in AddrSet(s.addrs))
  }

  ghost predicate AddrsOk(root: nat, s: EState) {
    forall e :: e in s.addrs ==> e.addr == root || EntryOk(s, e)
  }

  ghost predicate EntryOk(s: EState, e: Entry) {
    exists k :: 0 < k < |s.log| && s.log[k].tracked && s.log[k].src == e.addr && s.log[k].off == e.offset + s.delta
  }

  ghost predicate Inv(sch: Schema, mem: seq<byte>, root: nat, nodes: set<Node>, s: EState) {
    LogOk(sch, mem, root, nodes, s) && AddrsOk(root, s)
  }

  /** In contiguous mode buffer and message coincide. */
  predicate Contiguous(s: EState) {
    s.copyAll && |s.buf| == s.outLen && |s.iov| > 0 && s.iov[|s.iov| - 1].Tmp?
  }

  /** The slot holds 0, or the offset of the object its pointer leads to. */
  ghost predicate SlotSet(sch: Schema, mem: seq<byte>, buf: seq<byte>, log: seq<Block>, delta: nat, slot: Slot, loc: nat) {
    if Leads(sch, mem, slot) then
      exists k :: 0 < k < |log| && PointsTo(log[k], slot) && LoadPtr(buf, loc + slot.rel) + delta == log[k].off
    else LoadPtr(buf, loc + slot.rel) == 0
  }

  predicate PointsTo(b: Block, slot: Slot) {
    b.src == slot.ptr && b.target == slot.target
  }

  ghost predicate SlotsSet(sch: Schema, mem: seq<byte>, buf: seq<byte>, log: seq<Block>, delta: nat, slots: seq<Slot>, loc: nat) {
    forall i :: 0 <= i < |slots| ==> SlotSet(sch, mem, buf, log, delta, slots[i], loc)
  }

  /** The bytes of an object outside its pointers are those of memory. */
  ghost predicate BytesKept(sch: Schema, mem: seq<byte>, buf: seq<byte>, b: Block)
    requires ValidSchema(sch) && ValidTarget(sch, b.target)
  {
    && b.off + b.size <= |buf|
    && forall i :: 0 <= i < b.size && OutsideSlots(TargetSlots(sch, mem, b.src, b.target), b.off, b.off + i) ==>
         buf[b.off + i] == Load(mem, b.src, b.size)[i]
  }

  ghost predicate BlockOk(sch: Schema, mem: seq<byte>, buf: seq<byte>, log: seq<Block>, delta: nat, b: Block)
    requires ValidSchema(sch)
  {
    && ValidTarget(sch, b.target)
    && BytesKept(sch, mem, buf, b)
    && SlotsSet(sch, mem, buf, log, delta, TargetSlots(sch, mem, b.src, b.target), b.off)
  }

  ghost predicate BlocksOk(sch: Schema, mem: seq<byte>, buf: seq<byte>, log: seq<Block>, delta: nat, lo: nat)
    requires ValidSchema(sch)
  {
    forall k :: lo <= k < |log| ==> BlockOk(sch, mem, buf, log, delta, log[k])
  }

  /** Slots as the walk finds them: unprocessed copies of the pointers in memory. */
  ghost predicate Fresh(buf: seq<byte>, slots: seq<Slot>, loc: nat) {
    forall i :: 0 <= i < |slots| ==> LoadPtr(buf, loc + slots[i].rel) == slots[i].ptr
  }

  // ----- slots hold the pointers of memory

  ghost predicate PtrsFrom(mem: seq<byte>, slots: seq<Slot>, p: nat) {
    forall i :: 0 <= i < |slots| ==> slots[i].ptr == LoadPtr(mem, p + slots[i].rel)
  }

  lemma PtrsConcat(mem: seq<byte>, x: seq<Slot>, y: seq<Slot>, p: nat)
    requires PtrsFrom(mem, x, p) && PtrsFrom(mem, y, p)
    ensures PtrsFrom(mem, x + y, p)
  {
  }

  lemma {:induction false} TypeSlotsPtrs(sch: Schema, mem: seq<byte>, f: nat, t: Type, counts: seq<nat>, a: nat, rel: nat)
    requires ValidSchema(sch) && f < |sch| && ValidType(sch, f, t, false) && rel <= a
    ensures PtrsFrom(mem, TypeSlots(sch, mem, f, t, counts, a, rel), a - rel)
    decreases ByValueDepth(sch, t), 0, Height(t), 0
  {
    hide ValidSchema, ValidSlots, LoadPtr;
    match t
    case Array(_, _) =>
      ElemTypeValid(sch, f, t, false);
      ElemDepth(sch, t);
      ElemSlotsPtrs(sch, mem, f, ElemType(t), counts, ElemCount(t, counts), a, rel);
    case Subformat(g) =>
      FieldSlotsPtrs(sch, mem, g, 0, a, rel);
    case _ =>
  }

  lemma {:induction false} ElemSlotsPtrs(sch: Schema, mem: seq<byte>, f: nat, e: Type, counts: seq<nat>, n: nat, a: nat, rel: nat)
    requires ValidSchema(sch) && f < |sch| && ValidType(sch, f, e, false) && !e.Array? && rel <= a
    ensures PtrsFrom(mem, ElemSlots(sch, mem, f, e, counts, n, a, rel), a - rel)
    decreases ByValueDepth(sch, e), 0, Height(e), n + 1
  {
    hide ValidSchema, TypeSlots, ValidSlots, PtrsFrom;
    if n > 0 {
      var z := ElemSize(sch, e);
      TypeSlotsPtrs(sch, mem, f, e, counts, a, rel);
      ElemSlotsPtrs(sch, mem, f, e, counts, n - 1, a + z, rel + z);
      PtrsConcat(mem, TypeSlots(sch, mem, f, e, counts, a, rel), ElemSlots(sch, mem, f, e, counts, n - 1, a + z, rel + z), a - rel);
    } else {
      NoPtrs(mem, a - rel);
    }
  }

  lemma NoPtrs(mem: seq<byte>, p: nat)
    ensures PtrsFrom(mem, [], p)
  {
  }

  lemma {:induction false} FieldSlotsPtrs(sch: Schema, mem: seq<byte>, f: nat, i: nat, a: nat, rel: nat)
    requires ValidSchema(sch) && f < |sch| && i <= |sch[f].fields| && rel <= a
    ensures PtrsFrom(mem, FieldSlots(sch, mem, f, i, a, rel), a - rel)
    decreases sch[f].level, 1, |sch[f].fields| - i, 0
  {
    hide TypeSlots, ValidSlots, PtrsFrom;
    if i < |sch[f].fields| {
      var fd := sch[f].fields[i];
      assert ValidFormat(sch, f);
      ByValueValid(sch, f, fd.typ);
      ByValueDepthOk(sch, f, fd.typ);
      TypeSlotsPtrs(sch, mem, f, fd.typ, Counts(sch, f, mem, a), a + fd.offset, rel + fd.offset);
      FieldSlotsPtrs(sch, mem, f, i + 1, a, rel);
      PtrsConcat(mem, TypeSlots(sch, mem, f, fd.typ, Counts(sch, f, mem, a), a + fd.offset, rel + fd.offset),
                 FieldSlots(sch, mem, f, i + 1, a, rel), a - rel);
    } else {
      NoPtrs(mem, a - rel);
    }
  }

  lemma TargetSlotsPtrs(sch: Schema, mem: seq<byte>, p: nat, t: Target)
    requires ValidSchema(sch) && ValidTarget(sch, t)
    ensures PtrsFrom(mem, TargetSlots(sch, mem, p, t), p)
  {
    hide TypeSlots, FieldSlots;
    if t.Data? {
      TypeSlotsPtrs(sch, mem, t.format, t.typ, [], p, 0);
    } else if t.Record? {
      FieldSlotsPtrs(sch, mem, t.format, 0, p, 0);
    }
  }

  /** A fresh copy of an object has fresh slots. */
  lemma CopyFresh(sch: Schema, mem: seq<byte>, buf: seq<byte>, p: nat, t: Target, at: nat, n: nat)
    requires ValidSchema(sch) && ValidTarget(sch, t) && n == TargetSize(sch, mem, p, t)
    requires at + n <= |buf| && Load(buf, at, n) == Load(mem, p, n)
    ensures Fresh(buf, TargetSlots(sch, mem, p, t), at)
  {
    hide ValidSchema, TargetSlots, ValidTarget, TargetSize, LoadPtr;
    TargetSlotsPtrs(sch, mem, p, t);
    TargetSlotsIn(sch, mem, p, t);
    var slots := TargetSlots(sch, mem, p, t);
    forall i | 0 <= i < |slots|
      ensures LoadPtr(buf, at + slots[i].rel) == slots[i].ptr
    {
      LoadPtrSub(buf, at, mem, p, n, slots[i].rel);
    }
  }

  lemma LoadPtrSub(x: seq<byte>, a: nat, y: seq<byte>, b: nat, n: nat, k: nat)
    requires Load(x, a, n) == Load(y, b, n) && k + 8 <= n
    ensures LoadPtr(x, a + k) == LoadPtr(y, b + k)
  {
    LoadSub(x, a, y, b, n, k, 8);
  }

  // ----- what is finished stays finished

  ghost predicate SameRange(b1: seq<byte>, b2: seq<byte>, lo: nat, hi: nat) {
    hi <= |b1| && hi <= |b2| && forall i :: lo <= i < hi ==> b1[i] == b2[i]
  }

  lemma LoadPtrSame(b1: seq<byte>, b2: seq<byte>, lo: nat, hi: nat, a: nat)
    requires SameRange(b1, b2, lo, hi) && lo <= a && a + 8 <= hi
    ensures LoadPtr(b1, a) == LoadPtr(b2, a)
  {
    assert b1[a..a + 8] == b2[a..a + 8];
  }

  lemma SlotSetKept(sch: Schema, mem: seq<byte>, b1: seq<byte>, b2: seq<byte>, l1: seq<Block>, l2: seq<Block>, delta: nat, slot: Slot, loc: nat)
    requires SlotSet(sch, mem, b1, l1, delta, slot, loc)
    requires LoadPtr(b1, loc + slot.rel) == LoadPtr(b2, loc + slot.rel) && l1 <= l2
    ensures SlotSet(sch, mem, b2, l2, delta, slot, loc)
  {
    hide LoadPtr, Leads;
  }

  lemma BlockOkKept(sch: Schema, mem: seq<byte>, b1: seq<byte>, b2: seq<byte>, l1: seq<Block>, l2: seq<Block>, delta: nat, b: Block)
    requires ValidSchema(sch) && BlockOk(sch, mem, b1, l1, delta, b) && b.size == TargetSize(sch, mem, b.src, b.target)
    requires SameRange(b1, b2, b.off, b.off + b.size) && l1 <= l2
    ensures BlockOk(sch, mem, b2, l2, delta, b)
  {
    hide ValidSchema, TargetSlots, LoadPtr, Leads, SlotSet, TargetSize, ValidTarget;
    var slots := TargetSlots(sch, mem, b.src, b.target);
    TargetSlotsIn(sch, mem, b.src, b.target);
    forall i | 0 <= i < |slots|
      ensures SlotSet(sch, mem, b2, l2, delta, slots[i], b.off)
    {
      LoadPtrSame(b1, b2, b.off, b.off + b.size, b.off + slots[i].rel);
      SlotSetKept(sch, mem, b1, b2, l1, l2, delta, slots[i], b.off);
    }
  }

  /** Blocks beyond the old end of the buffer survive writes to slots before it. */
  lemma BlocksOkKept(sch: Schema, mem: seq<byte>, s: EState, s1: EState, r: EState, slots: seq<Slot>, loc: nat, root: nat, nodes: set<Node>)
    requires ValidSchema(sch) && LogOk(sch, mem, root, nodes, s1) && s1.log <= r.log && |s.log| <= |s1.log| && s1.delta == r.delta
    requires BlocksOk(sch, mem, s1.buf, s1.log, s1.delta, |s.log|)
    requires BlocksOk(sch, mem, r.buf, r.log, r.delta, |s1.log|)
    requires forall k :: |s.log| <= k < |s1.log| ==> |s.buf| <= s1.log[k].off
    requires |s1.buf| == s1.outLen && SameBut(s1.buf, r.buf, slots, loc)
    requires forall i :: 0 <= i < |slots| ==> loc + slots[i].rel + PointerSize <= |s.buf|
    ensures BlocksOk(sch, mem, r.buf, r.log, r.delta, |s.log|)
  {
    hide ValidSchema, BlockOk;
    forall k | |s.log| <= k < |r.log|
      ensures BlockOk(sch, mem, r.buf, r.log, r.delta, r.log[k])
    {
      if k < |s1.log| {
        var b := s1.log[k];
        assert BlockShape(sch, mem, s1, k, nodes);
        assert SameRange(s1.buf, r.buf, b.off, b.off + b.size) by {
          forall p | b.off <= p < b.off + b.size
            ensures OutsideSlots(slots, loc, p)
          {
          }
        }
        BlockOkKept(sch, mem, s1.buf, r.buf, s1.log, r.log, r.delta, b);
      }
    }
  }

  // ----- one new object

  lemma PlaceContiguous(sch: Schema, mem: seq<byte>, slot: Slot, s: EState)
    requires Contiguous(s) && TargetSize(sch, mem, slot.ptr, slot.target) > 0
    ensures var r := Place(sch, mem, slot, s);
      Contiguous(r) && r.log[|s.log|].copied && r.log[|s.log|].tmp == r.log[|s.log|].off
  {
    hide TargetSize, TargetFlat;
  }

  lemma FindEntry(addrs: seq<Entry>, a: nat) returns (e: Entry)
    requires Find(addrs, a) != -1
    ensures e in addrs && e.addr == a && e.offset == Find(addrs, a)
  {
    hide AddrSet;
    var last := addrs[|addrs| - 1];
    if last.addr == a {
      e := last;
    } else {
      e := FindEntry(addrs[..|addrs| - 1], a);
    }
  }

  lemma FollowInv(sch: Schema, mem: seq<byte>, root: nat, nodes: set<Node>, slot: Slot, loc: nat, s: EState)
    requires Inv(sch, mem, root, nodes, s) && ValidSlot(sch, slot) && s.delta <= s.outLen
    requires Decide(sch, mem, slot, s.addrs).New? && (slot.ptr, slot.target) in nodes
    ensures Inv(sch, mem, root, nodes, Follow(sch, mem, slot, loc, s))
    ensures Follow(sch, mem, slot, loc, s).log[|s.log|].off >= s.outLen
  {
    hide TargetSize, TargetFlat, Find, StorePtr, ValidType, Load, AllocateTmpSpace, CopyToTmp, AddIovec, Place, InPlace;
    PlaceShape(sch, mem, slot, s);
    var r := Follow(sch, mem, slot, loc, s);
    var n := |s.log|;
    var b := r.log[n];
    assert AddrSet(s.addrs) <= AddrSet(r.addrs);
    assert slot.tracked ==> r.addrs[|s.addrs|] in r.addrs && slot.ptr in AddrSet(r.addrs);
    forall k | 0 <= k < |r.log|
      ensures BlockShape(sch, mem, r, k, nodes)
    {
      if k < n {
        assert r.log[k] == s.log[k];
        assert BlockShape(sch, mem, s, k, nodes);
      }
    }
    forall k, l | 0 <= k < l < |r.log|
      ensures r.log[k].off + r.log[k].size <= r.log[l].off
      ensures r.log[k].tracked && r.log[l].tracked ==> r.log[k].src != r.log[l].src
    {
      assert r.log[k] == s.log[k] && BlockShape(sch, mem, s, k, nodes);
      if l < n { assert r.log[l] == s.log[l]; }
    }
    forall e | e in r.addrs && e.addr != root
      ensures EntryOk(r, e)
    {
      if e in s.addrs {
        assert EntryOk(s, e);
        var k :| 0 < k < n && s.log[k].tracked && s.log[k].src == e.addr && s.log[k].off == e.offset + s.delta;
        assert r.log[k] == s.log[k];
      } else {
        assert e == Entry(slot.ptr, b.off - s.delta);
      }
    }
  }

  /** A reused address refers to the one object placed for it. */
  lemma ReuseSet(sch: Schema, mem: seq<byte>, root: nat, f0: nat, nodes: set<Node>, slot: Slot, loc: nat, s: EState)
    requires ValidSchema(sch) && Graph(sch, mem, root, f0, nodes) && Inv(sch, mem, root, nodes, s)
    requires ValidSlot(sch, slot) && SlotClosed(sch, mem, root, slot, nodes)
    requires Decide(sch, mem, slot, s.addrs).Reuse? && s.outLen < POW64 && loc + slot.rel + PointerSize <= |s.buf|
    ensures SlotSet(sch, mem, StorePtr(s.buf, loc + slot.rel, Find(s.addrs, slot.ptr)), s.log, s.delta, slot, loc)
    ensures Leads(sch, mem, slot)
    ensures Find(s.addrs, slot.ptr) < s.outLen
  {
    hide ValidSchema, NodeClosed, TargetSize, Find, LoadPtr, StorePtr;
    var e := FindEntry(s.addrs, slot.ptr);
    if slot.ptr == root {
      assert false;
    }
    assert EntryOk(s, e);
    var k :| 0 < k < |s.log| && s.log[k].tracked && s.log[k].src == e.addr && s.log[k].off == e.offset + s.delta;
    assert BlockShape(sch, mem, s, k, nodes);
    var n: Node := (s.log[k].src, s.log[k].target);
    assert n in nodes && Tracked(sch, n.1) && n.0 == slot.ptr;
    assert Leads(sch, mem, slot);
    var m: Node := (slot.ptr, slot.target);
    assert m in nodes && Tracked(sch, m.1);
    assert n == m;
    assert PointsTo(s.log[k], slot);
    LoadStorePtr(s.buf, loc + slot.rel, e.offset);
  }

  // ----- the whole emission

  /** Everything known when the slots of the object at loc are about to be emitted. */
  ghost predicate Emitting(sch: Schema, mem: seq<byte>, root: nat, f0: nat, nodes: set<Node>, slots: seq<Slot>, loc: nat, n: nat, s: EState) {
    && ValidSchema(sch) && Graph(sch, mem, root, f0, nodes) && s.delta <= s.outLen
    && SlotsIn(sch, slots, 0, n) && loc + n <= |s.buf|
    && SlotsClosed(sch, mem, root, slots, nodes) && Fresh(s.buf, slots, loc)
    && Inv(sch, mem, root, nodes, s) && Contiguous(s)
  }

  ghost predicate Emitted(sch: Schema, mem: seq<byte>, root: nat, nodes: set<Node>, slots: seq<Slot>, loc: nat, s: EState, r: EState)
    requires ValidSchema(sch)
  {
    && Inv(sch, mem, root, nodes, r) && Contiguous(r) && r.delta == s.delta && s.log <= r.log
    && SameBut(s.buf, r.buf, slots, loc)
    && SlotsSet(sch, mem, r.buf, r.log, r.delta, slots, loc)
    && BlocksOk(sch, mem, r.buf, r.log, r.delta, |s.log|)
    && NewBlocksAfter(s, r)
  }

  ghost predicate NewBlocksAfter(s: EState, r: EState) {
    forall k :: |s.log| <= k < |r.log| ==> |s.buf| <= r.log[k].off
  }

  /** Emission puts every reachable object of the graph in the message, with its pointers
      set; what was there before is untouched but for the given slots. */
  lemma {:induction false} EmitMeaning(sch: Schema, mem: seq<byte>, root: nat, f0: nat, nodes: set<Node>, slots: seq<Slot>, loc: nat, n: nat, s: EState)
    requires Emitting(sch, mem, root, f0, nodes, slots, loc, n, s)
    requires Emit(sch, mem, slots, loc, s).outLen < POW64
    ensures Emitted(sch, mem, root, nodes, slots, loc, s, Emit(sch, mem, slots, loc, s))
    decreases Unseen(s.addrs), MaxRank(sch, slots), |slots| + 1
  {
    hide ValidSchema, Graph, Inv, BlocksOk, MaxRank, TargetRank, Unseen, SlotClosed, SlotSet, LoadPtr, ValidTarget, EmitSlot;
    if slots == [] {
      NothingEmitted(sch, mem, root, nodes, loc, s);
    } else {
      var s1 := EmitSlot(sch, mem, slots[0], loc, s);
      var r := Emit(sch, mem, slots, loc, s);
      EmitFrame(sch, mem, slots[1..], loc, s1);
      HeadRank(sch, slots);
      FirstEmitting(sch, mem, root, f0, nodes, slots, loc, n, s);
      EmitSlotMeaning(sch, mem, root, f0, nodes, slots[0], loc, n, s);
      UnseenMonotone(s.addrs, s1.addrs);
      RestEmitting(sch, mem, root, f0, nodes, slots, loc, n, s, s1);
      EmitMeaning(sch, mem, root, f0, nodes, slots[1..], loc, n, s1);
      EmittedCompose(sch, mem, root, f0, nodes, slots, loc, n, s, s1, r);
    }
  }

  lemma HeadRank(sch: Schema, slots: seq<Slot>)
    requires slots != []
    ensures MaxRank(sch, slots[1..]) <= MaxRank(sch, slots)
    ensures Descends(slots[0]) ==> TargetRank(sch, slots[0].target) + 1 <= MaxRank(sch, slots)
  {
    hide TargetRank;
  }

  lemma FirstEmitting(sch: Schema, mem: seq<byte>, root: nat, f0: nat, nodes: set<Node>, slots: seq<Slot>, loc: nat, n: nat, s: EState)
    requires slots != [] && Emitting(sch, mem, root, f0, nodes, slots, loc, n, s)
    ensures Emitting(sch, mem, root, f0, nodes, [slots[0]], loc, n, s)
    ensures ValidSlot(sch, slots[0])
  {
    hide ValidSchema, Graph, Inv, SlotClosed, ValidSlot, LoadPtr;
  }

  lemma NothingEmitted(sch: Schema, mem: seq<byte>, root: nat, nodes: set<Node>, loc: nat, s: EState)
    requires ValidSchema(sch) && Inv(sch, mem, root, nodes, s) && Contiguous(s) && s.delta <= s.outLen
    ensures Emitted(sch, mem, root, nodes, [], loc, s, s)
  {
    hide ValidSchema, Inv, BlockOk;
  }

  lemma RestEmitting(sch: Schema, mem: seq<byte>, root: nat, f0: nat, nodes: set<Node>, slots: seq<Slot>, loc: nat, n: nat, s: EState, s1: EState)
    requires slots != [] && Emitting(sch, mem, root, f0, nodes, slots, loc, n, s)
    requires Emitted(sch, mem, root, nodes, [slots[0]], loc, s, s1) && s1.delta <= s1.outLen
    ensures Emitting(sch, mem, root, f0, nodes, slots[1..], loc, n, s1)
  {
    hide ValidSchema, Graph, Inv, BlocksOk, SlotClosed, SlotSet, ValidSlot, LoadPtr;
    var rest := slots[1..];
    forall i | 0 <= i < |rest|
      ensures LoadPtr(s1.buf, loc + rest[i].rel) == rest[i].ptr
    {
      var a := loc + rest[i].rel;
      assert rest[i] == slots[i + 1];
      assert SameRange(s1.buf, s.buf, a, a + 8) by {
        forall p | a <= p < a + 8
          ensures OutsideSlots([slots[0]], loc, p)
        {
        }
      }
      LoadPtrSame(s1.buf, s.buf, a, a + 8, a);
    }
  }

  lemma EmittedCompose(sch: Schema, mem: seq<byte>, root: nat, f0: nat, nodes: set<Node>, slots: seq<Slot>, loc: nat, n: nat, s: EState, s1: EState, r: EState)
    requires slots != [] && Emitting(sch, mem, root, f0, nodes, slots, loc, n, s)
    requires Emitted(sch, mem, root, nodes, [slots[0]], loc, s, s1)
    requires Emitted(sch, mem, root, nodes, slots[1..], loc, s1, r)
    ensures Emitted(sch, mem, root, nodes, slots, loc, s, r)
  {
    hide ValidSchema, Graph, BlockOk, SlotClosed, SlotSet, ValidSlot, LoadPtr, LogOk, AddrsOk;
    var rest := slots[1..];
    forall p | 0 <= p < |s.buf| && OutsideSlots(slots, loc, p)
      ensures r.buf[p] == s.buf[p]
    {
      assert OutsideSlots([slots[0]], loc, p) && OutsideSlots(rest, loc, p);
    }
    forall i | 0 <= i < |slots|
      ensures SlotSet(sch, mem, r.buf, r.log, r.delta, slots[i], loc)
    {
      if i == 0 {
        assert SlotSet(sch, mem, s1.buf, s1.log, s1.delta, [slots[0]][0], loc);
        var a := loc + slots[0].rel;
        assert SameRange(s1.buf, r.buf, a, a + 8) by {
          forall p | a <= p < a + 8
            ensures OutsideSlots(rest, loc, p)
          {
          }
        }
        LoadPtrSame(s1.buf, r.buf, a, a + 8, a);
        SlotSetKept(sch, mem, s1.buf, r.buf, s1.log, r.log, r.delta, slots[0], loc);
      } else {
        assert slots[i] == rest[i - 1];
      }
    }
    BlocksOkKept(sch, mem, s, s1, r, rest, loc, root, nodes);
    forall k | |s.log| <= k < |r.log|
      ensures |s.buf| <= r.log[k].off
    {
      if k < |s1.log| { assert r.log[k] == s1.log[k]; }
    }
  }

  lemma {:induction false} EmitSlotMeaning(sch: Schema, mem: seq<byte>, root: nat, f0: nat, nodes: set<Node>, slot: Slot, loc: nat, n: nat, s: EState)
    requires ValidSchema(sch) && s.delta <= s.outLen
    requires Emitting(sch, mem, root, f0, nodes, [slot], loc, n, s) && ValidSlot(sch, slot)
    requires EmitSlot(sch, mem, slot, loc, s).outLen < POW64
    ensures Emitted(sch, mem, root, nodes, [slot], loc, s, EmitSlot(sch, mem, slot, loc, s))
    decreases Unseen(s.addrs), if Descends(slot) then TargetRank(sch, slot.target) + 1 else 0, 0
  {
    hide ValidSchema, Emitting, Emitted, Find, TargetSize, TargetSlots, TargetFlat, Unseen, MaxRank, TargetRank, ValidSlot, ValidSlots, Follow, StorePtr, Emit;
    EmitSlotFrame(sch, mem, slot, loc, s);
    match Decide(sch, mem, slot, s.addrs)
    case Leave => LeaveEmitted(sch, mem, root, f0, nodes, slot, loc, n, s);
    case Clear => ClearEmitted(sch, mem, root, f0, nodes, slot, loc, n, s);
    case Reuse(_) => ReuseEmitted(sch, mem, root, f0, nodes, slot, loc, n, s);
    case New =>
      var s1 := Follow(sch, mem, slot, loc, s);
      var b := s1.log[|s.log|];
      if TargetFlat(sch, slot.target) {
        FollowState(sch, mem, root, f0, nodes, slot, loc, n, s);
        FlatEmitted(sch, mem, root, f0, nodes, slot, loc, n, s);
      } else {
        FlatOrData(sch, slot);
        var sub := TargetSlots(sch, mem, slot.ptr, slot.target);
        Descent(sch, mem, slot, loc, s);
        EmitFrame(sch, mem, sub, b.tmp, s1);
        FollowState(sch, mem, root, f0, nodes, slot, loc, n, s);
        SubEmitting(sch, mem, root, f0, nodes, slot, loc, n, s);
        EmitMeaning(sch, mem, root, f0, nodes, sub, b.off, b.size, s1);
        DeepEmitted(sch, mem, root, f0, nodes, slot, loc, n, s, Emit(sch, mem, sub, b.off, s1));
      }
  }

  lemma FlatOrData(sch: Schema, slot: Slot)
    requires ValidSlot(sch, slot) && !TargetFlat(sch, slot.target)
    ensures slot.target.Data? && ValidTarget(sch, slot.target)
  {
  }

  lemma InvSame(sch: Schema, mem: seq<byte>, root: nat, nodes: set<Node>, s: EState, b: seq<byte>)
    requires Inv(sch, mem, root, nodes, s)
    ensures Inv(sch, mem, root, nodes, s.(buf := b))
  {
    hide TargetSize, Tracked, AddrSet;
    var r := s.(buf := b);
    forall k | 0 <= k < |r.log|
      ensures BlockShape(sch, mem, r, k, nodes)
    {
      assert BlockShape(sch, mem, s, k, nodes);
    }
    forall e | e in r.addrs && e.addr != root
      ensures EntryOk(r, e)
    {
      assert EntryOk(s, e);
    }
  }

  lemma PatchEmitted(sch: Schema, mem: seq<byte>, root: nat, f0: nat, nodes: set<Node>, slot: Slot, loc: nat, n: nat, s: EState, v: nat)
    requires Emitting(sch, mem, root, f0, nodes, [slot], loc, n, s)
    requires SlotSet(sch, mem, StorePtr(s.buf, loc + slot.rel, v), s.log, s.delta, slot, loc)
    ensures Emitted(sch, mem, root, nodes, [slot], loc, s, s.(buf := StorePtr(s.buf, loc + slot.rel, v)))
  {
    hide ValidSchema, Graph, Inv, SlotSet, LoadPtr, SlotClosed, ValidSlot, BlockOk;
    var r := s.(buf := StorePtr(s.buf, loc + slot.rel, v));
    InvSame(sch, mem, root, nodes, s, r.buf);
    forall p | 0 <= p < |s.buf| && OutsideSlots([slot], loc, p)
      ensures r.buf[p] == s.buf[p]
    {
      assert [slot][0] == slot;
    }
  }

  lemma LeaveEmitted(sch: Schema, mem: seq<byte>, root: nat, f0: nat, nodes: set<Node>, slot: Slot, loc: nat, n: nat, s: EState)
    requires Emitting(sch, mem, root, f0, nodes, [slot], loc, n, s) && slot.ptr == 0
    ensures Emitted(sch, mem, root, nodes, [slot], loc, s, s)
  {
    hide ValidSchema, Graph, Inv, LoadPtr, SlotClosed, ValidSlot, BlockOk;
    assert LoadPtr(s.buf, loc + [slot][0].rel) == 0;
  }

  lemma ClearEmitted(sch: Schema, mem: seq<byte>, root: nat, f0: nat, nodes: set<Node>, slot: Slot, loc: nat, n: nat, s: EState)
    requires Emitting(sch, mem, root, f0, nodes, [slot], loc, n, s) && TargetSize(sch, mem, slot.ptr, slot.target) == 0
    ensures Emitted(sch, mem, root, nodes, [slot], loc, s, s.(buf := StorePtr(s.buf, loc + slot.rel, 0)))
  {
    hide ValidSchema, Graph, Inv, LoadPtr, SlotClosed, ValidSlot, BlockOk, StorePtr, TargetSize, Emitted;
    assert loc + [slot][0].rel + 8 <= |s.buf|;
    LoadStorePtr(s.buf, loc + slot.rel, 0);
    PatchEmitted(sch, mem, root, f0, nodes, slot, loc, n, s, 0);
  }

  lemma ReuseEmitted(sch: Schema, mem: seq<byte>, root: nat, f0: nat, nodes: set<Node>, slot: Slot, loc: nat, n: nat, s: EState)
    requires Emitting(sch, mem, root, f0, nodes, [slot], loc, n, s) && ValidSlot(sch, slot)
    requires Decide(sch, mem, slot, s.addrs).Reuse? && s.outLen < POW64
    ensures Emitted(sch, mem, root, nodes, [slot], loc, s, s.(buf := StorePtr(s.buf, loc + slot.rel, Find(s.addrs, slot.ptr))))
  {
    hide ValidSchema, Graph, Inv, LoadPtr, SlotClosed, ValidSlot, BlockOk, StorePtr, TargetSize, Emitted, SlotSet, Find;
    assert loc + [slot][0].rel + 8 <= |s.buf| && SlotClosed(sch, mem, root, [slot][0], nodes);
    ReuseSet(sch, mem, root, f0, nodes, slot, loc, s);
    PatchEmitted(sch, mem, root, f0, nodes, slot, loc, n, s, Find(s.addrs, slot.ptr));
  }

  /** The state after placing a new object and pointing the slot at it. */
  lemma FollowState(sch: Schema, mem: seq<byte>, root: nat, f0: nat, nodes: set<Node>, slot: Slot, loc: nat, n: nat, s: EState)
    requires Emitting(sch, mem, root, f0, nodes, [slot], loc, n, s) && ValidSlot(sch, slot)
    requires Decide(sch, mem, slot, s.addrs).New?
    requires Follow(sch, mem, slot, loc, s).outLen < POW64
    ensures var r := Follow(sch, mem, slot, loc, s); var b := r.log[|s.log|];
      && Inv(sch, mem, root, nodes, r) && Contiguous(r) && r.log == s.log + [b]
      && SameBut(s.buf, r.buf, [slot], loc)
      && b == Block(slot.ptr, b.off, TargetSize(sch, mem, slot.ptr, slot.target), slot.tracked, slot.target, true, b.off)
      && (slot.ptr, slot.target) in nodes
      && |s.buf| <= b.off && b.off + b.size == |r.buf| && Load(r.buf, b.off, b.size) == Load(mem, slot.ptr, b.size)
      && SlotSet(sch, mem, r.buf, r.log, r.delta, slot, loc)
      && LoadPtr(r.buf, loc + slot.rel) + r.delta == b.off && r.delta == s.delta
  {
    hide ValidSchema, Graph, LogOk, AddrsOk, LoadPtr, ValidSlot, BlockOk, TargetSize, Place, Find, InPlace;
    assert loc + [slot][0].rel + 8 <= |s.buf| && SlotClosed(sch, mem, root, [slot][0], nodes);
    PlaceShape(sch, mem, slot, s);
    PlaceContiguous(sch, mem, slot, s);
    FollowFrame(sch, mem, slot, loc, s);
    FollowInv(sch, mem, root, nodes, slot, loc, s);
    var p := Place(sch, mem, slot, s);
    var r := Follow(sch, mem, slot, loc, s);
    var b := r.log[|s.log|];
    LoadStorePtr(p.buf, loc + slot.rel, b.off - s.delta);
    assert r.buf[b.off..b.off + b.size] == p.buf[b.off..b.off + b.size];
    PlaceCopies(sch, slot, s);
    assert r.log == r.log[..|s.log|] + [b];
    assert LoadPtr(r.buf, loc + slot.rel) + s.delta == b.off && PointsTo(b, slot);
    assert 0 < |s.log| by { LogNonEmpty(sch, mem, root, nodes, s); }
  }

  lemma LogNonEmpty(sch: Schema, mem: seq<byte>, root: nat, nodes: set<Node>, s: EState)
    requires Inv(sch, mem, root, nodes, s)
    ensures |s.log| > 0
  {
  }

  lemma PlaceCopies(sch: Schema, slot: Slot, s: EState)
    requires s.copyAll
    ensures !InPlace(sch, slot.target, s.copyAll)
  {
  }

  lemma FlatEmitted(sch: Schema, mem: seq<byte>, root: nat, f0: nat, nodes: set<Node>, slot: Slot, loc: nat, n: nat, s: EState)
    requires Emitting(sch, mem, root, f0, nodes, [slot], loc, n, s) && ValidSlot(sch, slot)
    requires Decide(sch, mem, slot, s.addrs).New? && TargetFlat(sch, slot.target)
    requires Follow(sch, mem, slot, loc, s).outLen < POW64
    ensures Emitted(sch, mem, root, nodes, [slot], loc, s, Follow(sch, mem, slot, loc, s))
  {
    hide ValidSchema, Graph, LogOk, AddrsOk, SlotSet, LoadPtr, SlotClosed, TargetSize, Place, Find, InPlace, TargetSlots, TargetFlat, ValidTarget;
    FollowState(sch, mem, root, f0, nodes, slot, loc, n, s);
    FlatTargetNoSlots(sch, mem, slot.ptr, slot.target);
    var r := Follow(sch, mem, slot, loc, s);
    var b := r.log[|s.log|];
    assert r.buf[b.off..b.off + b.size] == Load(mem, slot.ptr, b.size);
    assert BlockOk(sch, mem, r.buf, r.log, r.delta, b);
  }

  lemma SubEmitting(sch: Schema, mem: seq<byte>, root: nat, f0: nat, nodes: set<Node>, slot: Slot, loc: nat, n: nat, s: EState)
    requires Emitting(sch, mem, root, f0, nodes, [slot], loc, n, s) && ValidSlot(sch, slot)
    requires Decide(sch, mem, slot, s.addrs).New?
    requires Follow(sch, mem, slot, loc, s).outLen < POW64
    ensures var r := Follow(sch, mem, slot, loc, s); var b := r.log[|s.log|];
      Emitting(sch, mem, root, f0, nodes, TargetSlots(sch, mem, slot.ptr, slot.target), b.off, b.size, r)
  {
    hide ValidSchema, LogOk, AddrsOk, SlotSet, LoadPtr, SlotClosed, TargetSize, Place, Find, InPlace, TargetSlots, ValidTarget;
    FollowState(sch, mem, root, f0, nodes, slot, loc, n, s);
    var r := Follow(sch, mem, slot, loc, s);
    var b := r.log[|s.log|];
    TargetSlotsIn(sch, mem, slot.ptr, slot.target);
    CopyFresh(sch, mem, r.buf, slot.ptr, slot.target, b.off, b.size);
    assert NodeClosed(sch, mem, root, (slot.ptr, slot.target), nodes);
  }

  lemma DeepEmitted(sch: Schema, mem: seq<byte>, root: nat, f0: nat, nodes: set<Node>, slot: Slot, loc: nat, n: nat, s: EState, r: EState)
    requires Emitting(sch, mem, root, f0, nodes, [slot], loc, n, s) && ValidSlot(sch, slot)
    requires Decide(sch, mem, slot, s.addrs).New?
    requires Follow(sch, mem, slot, loc, s).outLen < POW64
    requires var s1 := Follow(sch, mem, slot, loc, s);
      Emitted(sch, mem, root, nodes, TargetSlots(sch, mem, slot.ptr, slot.target), s1.log[|s.log|].off, s1, r)
    ensures Emitted(sch, mem, root, nodes, [slot], loc, s, r)
  {
    hide ValidSchema, Graph, LogOk, AddrsOk, SlotSet, LoadPtr, SlotClosed, TargetSize, Place, Find, InPlace, TargetSlots, ValidType, Follow;
    FollowState(sch, mem, root, f0, nodes, slot, loc, n, s);
    var s1 := Follow(sch, mem, slot, loc, s);
    var b := s1.log[|s.log|];
    var sub := TargetSlots(sch, mem, slot.ptr, slot.target);
    assert r.log[|s.log|] == b;
    forall p | 0 <= p < |s.buf|
      ensures OutsideSlots(sub, b.off, p)
    {
    }
    var a := loc + slot.rel;
    assert a + 8 <= |s.buf| by { assert loc + [slot][0].rel + 8 <= |s.buf|; }
    LoadPtrSame(s1.buf, r.buf, a, a + 8, a);
    SlotSetKept(sch, mem, s1.buf, r.buf, s1.log, r.log, r.delta, slot, loc);
    assert BlockOk(sch, mem, r.buf, r.log, r.delta, b) by {
      forall i | 0 <= i < b.size && OutsideSlots(sub, b.off, b.off + i)
        ensures r.buf[b.off + i] == Load(mem, b.src, b.size)[i]
      {
        assert s1.buf[b.off + i] == Load(s1.buf, b.off, b.size)[i];
      }
    }
  }
}
