/** Encoder and decoder walk the same graph in the same order: the decoder's test
    "offset <= cur_offset" holds exactly where the encoder reused an address. */
module Lockstep {
  import opened Bytes
  import opened Formats
  import opened ObjectGraph
  import opened EncodeSpec
  import opened EncodeFrame
  import opened EncodeReady
  import opened EncodeMeaning
  import opened DecodeSpec

  /** cur_offset after a history: the offset of the last object that is not a string. */
  function Cur(log: seq<Block>, delta: nat): nat {
    if |log| <= 1 then 0
    else
      var b := log[|log| - 1];
      if b.target.Data? && b.off >= delta then b.off - delta else Cur(log[..|log| - 1], delta)
  }

  lemma CurStep(log: seq<Block>, b: Block, delta: nat)
    requires |log| >= 1
    ensures Cur(log + [b], delta) == if b.target.Data? && b.off >= delta then b.off - delta else Cur(log, delta)
  {
    assert (log + [b])[..|log|] == log;
  }

  lemma {:induction false} CurBounds(sch: Schema, mem: seq<byte>, root: nat, nodes: set<Node>, s: EState, n: nat)
    requires LogOk(sch, mem, root, nodes, s) && 1 <= n <= |s.log|
    ensures forall k :: 0 < k < n && s.log[k].target.Data? ==> s.log[k].off - s.delta <= Cur(s.log[..n], s.delta)
    ensures Cur(s.log[..n], s.delta) > 0 ==> exists k :: 0 < k < n && s.log[k].target.Data? && s.log[k].off - s.delta == Cur(s.log[..n], s.delta)
    decreases n
  {
    hide TargetSize, Tracked, AddrSet;
    if n > 1 {
      CurBounds(sch, mem, root, nodes, s, n - 1);
      assert s.log[..n][..n - 1] == s.log[..n - 1];
      assert BlockShape(sch, mem, s, n - 1, nodes);
    }
  }

  /** The next object placed lies beyond everything entered. */
  lemma CurBelowEnd(sch: Schema, mem: seq<byte>, root: nat, nodes: set<Node>, s: EState)
    requires Inv(sch, mem, root, nodes, s)
    ensures Cur(s.log, s.delta) + s.delta < s.outLen
  {
    hide TargetSize, Tracked, AddrSet;
    CurBounds(sch, mem, root, nodes, s, |s.log|);
    assert s.log[..|s.log|] == s.log;
    if Cur(s.log, s.delta) > 0 {
      var k :| 0 < k < |s.log| && s.log[k].target.Data? && s.log[k].off - s.delta == Cur(s.log, s.delta);
      assert BlockShape(sch, mem, s, k, nodes);
    }
  }

  lemma ReuseBelowCur(sch: Schema, mem: seq<byte>, root: nat, nodes: set<Node>, s: EState, slot: Slot)
    requires Inv(sch, mem, root, nodes, s) && Find(s.addrs, slot.ptr) != -1 && slot.ptr != root
    ensures 0 < Find(s.addrs, slot.ptr) <= Cur(s.log, s.delta)
  {
    hide TargetSize, Find, AddrSet;
    var e := FindEntry(s.addrs, slot.ptr);
    assert EntryOk(s, e);
    var k :| 0 < k < |s.log| && s.log[k].tracked && s.log[k].src == e.addr && s.log[k].off == e.offset + s.delta;
    assert BlockShape(sch, mem, s, k, nodes);
    CurBounds(sch, mem, root, nodes, s, |s.log|);
    assert s.log[..|s.log|] == s.log;
  }

  // ----- state of the joint walk

  ghost predicate PtrsOf(m: seq<byte>, mslots: seq<Slot>, loc: nat) {
    forall i :: 0 <= i < |mslots| ==> mslots[i].ptr == LoadPtr(m, loc + mslots[i].rel)
  }

  ghost predicate SlotsAgree(x: seq<byte>, y: seq<byte>, slots: seq<Slot>, loc: nat) {
    forall i :: 0 <= i < |slots| ==> LoadPtr(x, loc + slots[i].rel) == LoadPtr(y, loc + slots[i].rel)
  }

  ghost predicate ConvertedSlots(msg: Message, buf: seq<byte>, mslots: seq<Slot>, loc: nat) {
    forall i :: 0 <= i < |mslots| ==> LoadPtr(buf, loc + mslots[i].rel) == Relocated(msg, mslots[i].ptr)
  }

  ghost predicate BlockConverted(sch: Schema, msg: Message, buf: seq<byte>, b: Block)
    requires ValidSchema(sch)
  {
    && ValidTarget(sch, b.target)
    && var ms := TargetSlots(sch, msg.m, b.off, b.target);
       && ConvertedSlots(msg, buf, ms, b.off)
       && b.off + b.size <= |buf| && |buf| == |msg.m|
       && forall p :: b.off <= p < b.off + b.size && OutsideSlots(ms, b.off, p) ==> buf[p] == msg.m[p]
  }

  ghost predicate BlocksConverted(sch: Schema, msg: Message, buf: seq<byte>, log: seq<Block>, lo: nat)
    requires ValidSchema(sch)
  {
    forall k :: lo <= k < |log| ==> BlockConverted(sch, msg, buf, log[k])
  }

  /** The finished message: what the emission from s to r wrote is in it for good. */
  ghost predicate Final(msg: Message, s: EState, r: EState, slots: seq<Slot>, loc: nat) {
    && msg.delta == s.delta && msg.base + |msg.m| < POW64
    && SameRange(msg.m, r.buf, |s.buf|, |r.buf|)
    && SlotsAgree(msg.m, r.buf, slots, loc)
  }

  /** The decoder is where the encoder was, over unconverted data. */
  ghost predicate Poised(msg: Message, s: EState, r: EState, slots: seq<Slot>, mslots: seq<Slot>, loc: nat, d: DState) {
    && SameShape(mslots, slots) && PtrsOf(msg.m, mslots, loc)
    && d.cur == Cur(s.log, s.delta) && |d.buf| == |msg.m|
    && SameRange(d.buf, msg.m, |s.buf|, |r.buf|)
    && SlotsAgree(d.buf, msg.m, slots, loc)
  }

  ghost predicate Arrived(sch: Schema, msg: Message, s: EState, r: EState, slots: seq<Slot>, mslots: seq<Slot>, loc: nat, d: DState, d': DState)
    requires ValidSchema(sch)
  {
    && d'.cur == Cur(r.log, r.delta) && |d'.buf| == |d.buf|
    && ConvertedSlots(msg, d'.buf, mslots, loc)
    && BlocksConverted(sch, msg, d'.buf, r.log, |s.log|)
    && (forall p :: 0 <= p < |d.buf| && (p < |s.buf| || |r.buf| <= p) && OutsideSlots(slots, loc, p) ==> d'.buf[p] == d.buf[p])
  }

  ghost predicate Valids(sch: Schema, mslots: seq<Slot>, s: EState) {
    ValidSchema(sch) && ValidSlots(sch, mslots) && s.delta <= s.outLen
  }

  lemma {:induction false} WalkTogether(
    sch: Schema, mem: seq<byte>, root: nat, f0: nat, nodes: set<Node>, msg: Message,
    slots: seq<Slot>, mslots: seq<Slot>, loc: nat, n: nat, s: EState, r: EState, d: DState)
    requires Valids(sch, mslots, s) && Emitting(sch, mem, root, f0, nodes, slots, loc, n, s)
    requires r == Emit(sch, mem, slots, loc, s) && r.outLen < POW64
    requires Final(msg, s, r, slots, loc) && Poised(msg, s, r, slots, mslots, loc, d)
    ensures Arrived(sch, msg, s, r, slots, mslots, loc, d, Conv(sch, msg, mslots, loc, d))
    decreases Unseen(s.addrs), MaxRank(sch, slots), |slots| + 1
  {
    hide ValidSchema, Emitting, Emitted, Final, Poised, Arrived, MaxRank, TargetRank, Unseen, EmitSlot, ConvSlot, ValidSlot;
    if slots == [] {
      ArrivedNone(sch, msg, s, slots, mslots, loc, d, r);
    } else {
      FirstEmitting(sch, mem, root, f0, nodes, slots, loc, n, s);
      EmittingValid(sch, mem, root, f0, nodes, slots, loc, n, s);
      var s1 := EmitSlot(sch, mem, slots[0], loc, s);
      EmitFrame(sch, mem, slots[1..], loc, s1);
      HeadRank(sch, slots);
      EmitSlotMeaning(sch, mem, root, f0, nodes, slots[0], loc, n, s);
      UnseenMonotone(s.addrs, s1.addrs);
      RestEmitting(sch, mem, root, f0, nodes, slots, loc, n, s, s1);
      EmitMeaning(sch, mem, root, f0, nodes, slots[1..], loc, n, s1);
      HeadPoised(sch, mem, root, f0, nodes, msg, slots, mslots, loc, n, s, s1, r, d);
      SlotTogether(sch, mem, root, f0, nodes, msg, slots[0], mslots[0], loc, n, s, s1, d);
      var d1 := ConvSlot(sch, msg, mslots[0], loc, d);
      RestPoised(sch, mem, root, f0, nodes, msg, slots, mslots, loc, n, s, s1, r, d, d1);
      WalkTogether(sch, mem, root, f0, nodes, msg, slots[1..], mslots[1..], loc, n, s1, r, d1);
      ArrivedCompose(sch, mem, root, f0, nodes, msg, slots, mslots, loc, n, s, s1, r, d, d1, Conv(sch, msg, mslots, loc, d));
    }
  }

  lemma EmittingValid(sch: Schema, mem: seq<byte>, root: nat, f0: nat, nodes: set<Node>, slots: seq<Slot>, loc: nat, n: nat, s: EState)
    requires Emitting(sch, mem, root, f0, nodes, slots, loc, n, s)
    ensures ValidSlots(sch, slots)
  {
    hide ValidSchema, Graph, Inv, ValidSlot;
  }

  lemma ArrivedNone(sch: Schema, msg: Message, s: EState, slots: seq<Slot>, mslots: seq<Slot>, loc: nat, d: DState, r: EState)
    requires ValidSchema(sch) && Poised(msg, s, s, slots, mslots, loc, d) && slots == [] && r == s
    ensures mslots == [] && Arrived(sch, msg, s, s, slots, mslots, loc, d, d)
  {
    hide ValidSchema, BlockConverted;
  }

  lemma HeadPoised(
    sch: Schema, mem: seq<byte>, root: nat, f0: nat, nodes: set<Node>, msg: Message,
    slots: seq<Slot>, mslots: seq<Slot>, loc: nat, n: nat, s: EState, s1: EState, r: EState, d: DState)
    requires slots != [] && Valids(sch, mslots, s) && Emitting(sch, mem, root, f0, nodes, slots, loc, n, s)
    requires Emitted(sch, mem, root, nodes, [slots[0]], loc, s, s1)
    requires Emitted(sch, mem, root, nodes, slots[1..], loc, s1, r)
    requires Final(msg, s, r, slots, loc) && Poised(msg, s, r, slots, mslots, loc, d)
    ensures mslots != [] && ValidSlot(sch, mslots[0])
    ensures Final(msg, s, s1, [slots[0]], loc) && Poised(msg, s, s1, [slots[0]], [mslots[0]], loc, d)
  {
    hide ValidSchema, Graph, Inv, BlocksOk, SlotClosed, SlotSet, ValidSlot, LoadPtr, Cur;
    var rest := slots[1..];
    forall p | 0 <= p < |s1.buf| && (|s.buf| <= p || loc + slots[0].rel <= p < loc + slots[0].rel + 8)
      ensures OutsideSlots(rest, loc, p)
    {
    }
    assert SameRange(s1.buf, r.buf, |s.buf|, |s1.buf|);
    var a := loc + slots[0].rel;
    assert SameRange(s1.buf, r.buf, a, a + 8);
    LoadPtrSame(s1.buf, r.buf, a, a + 8, a);
  }

  lemma RestPoised(
    sch: Schema, mem: seq<byte>, root: nat, f0: nat, nodes: set<Node>, msg: Message,
    slots: seq<Slot>, mslots: seq<Slot>, loc: nat, n: nat, s: EState, s1: EState, r: EState, d: DState, d1: DState)
    requires slots != [] && mslots != [] && Valids(sch, mslots, s) && Emitting(sch, mem, root, f0, nodes, slots, loc, n, s)
    requires Emitted(sch, mem, root, nodes, [slots[0]], loc, s, s1)
    requires Emitted(sch, mem, root, nodes, slots[1..], loc, s1, r)
    requires Final(msg, s, r, slots, loc) && Poised(msg, s, r, slots, mslots, loc, d)
    requires Arrived(sch, msg, s, s1, [slots[0]], [mslots[0]], loc, d, d1)
    ensures Final(msg, s1, r, slots[1..], loc) && Poised(msg, s1, r, slots[1..], mslots[1..], loc, d1)
    ensures ValidSlots(sch, mslots[1..])
  {
    hide ValidSchema, Graph, Inv, BlocksOk, BlocksConverted, SlotClosed, SlotSet, ValidSlot, LoadPtr, Cur, Relocated;
    var rest := slots[1..];
    forall i | 0 <= i < |rest|
      ensures LoadPtr(d1.buf, loc + rest[i].rel) == LoadPtr(msg.m, loc + rest[i].rel)
    {
      var a := loc + rest[i].rel;
      assert rest[i] == slots[i + 1];
      forall p | a <= p < a + 8
        ensures OutsideSlots([slots[0]], loc, p)
      {
      }
      assert SameRange(d1.buf, d.buf, a, a + 8);
      LoadPtrSame(d1.buf, d.buf, a, a + 8, a);
    }
    forall p | |s1.buf| <= p < |r.buf|
      ensures OutsideSlots([slots[0]], loc, p)
    {
      assert [slots[0]][0].rel + loc + 8 <= |s.buf|;
    }
  }

  lemma ArrivedCompose(
    sch: Schema, mem: seq<byte>, root: nat, f0: nat, nodes: set<Node>, msg: Message,
    slots: seq<Slot>, mslots: seq<Slot>, loc: nat, n: nat, s: EState, s1: EState, r: EState, d: DState, d1: DState, d2: DState)
    requires slots != [] && mslots != [] && Valids(sch, mslots, s) && Emitting(sch, mem, root, f0, nodes, slots, loc, n, s)
    requires Emitted(sch, mem, root, nodes, [slots[0]], loc, s, s1)
    requires Emitted(sch, mem, root, nodes, slots[1..], loc, s1, r)
    requires Final(msg, s, r, slots, loc) && Poised(msg, s, r, slots, mslots, loc, d)
    requires Arrived(sch, msg, s, s1, [slots[0]], [mslots[0]], loc, d, d1)
    requires Arrived(sch, msg, s1, r, slots[1..], mslots[1..], loc, d1, d2)
    ensures Arrived(sch, msg, s, r, slots, mslots, loc, d, d2)
  {
    hide ValidSchema, Graph, BlocksOk, BlockConverted, SlotClosed, SlotSet, ValidSlot, LoadPtr, Cur, Relocated, AddrsOk;
    var rest := slots[1..];
    forall p | 0 <= p < |s1.buf| && (|s.buf| <= p || loc + slots[0].rel <= p < loc + slots[0].rel + 8)
      ensures OutsideSlots(rest, loc, p)
    {
    }
    assert SameRange(d1.buf, d2.buf, |s.buf|, |s1.buf|);
    var a := loc + slots[0].rel;
    assert SameRange(d1.buf, d2.buf, a, a + 8);
    LoadPtrSame(d1.buf, d2.buf, a, a + 8, a);
    forall i | 0 <= i < |mslots|
      ensures LoadPtr(d2.buf, loc + mslots[i].rel) == Relocated(msg, mslots[i].ptr)
    {
      if i == 0 {
        assert LoadPtr(d1.buf, loc + [mslots[0]][0].rel) == Relocated(msg, [mslots[0]][0].ptr);
      } else {
        assert mslots[i] == mslots[1..][i - 1];
      }
    }
    forall p | 0 <= p < |d.buf| && (p < |s.buf| || |r.buf| <= p) && OutsideSlots(slots, loc, p)
      ensures d2.buf[p] == d.buf[p]
    {
      assert OutsideSlots([slots[0]], loc, p) && OutsideSlots(rest, loc, p);
    }
    forall k | |s.log| <= k < |r.log|
      ensures BlockConverted(sch, msg, d2.buf, r.log[k])
    {
      if k < |s1.log| {
        assert r.log[k] == s1.log[k] && BlockShape(sch, mem, s1, k, nodes);
        BlockConvertedKept(sch, msg, d1.buf, d2.buf, s1.log[k], |s.buf|, |s1.buf|);
      }
    }
  }

  lemma ImageSlotsIn(sch: Schema, mem: seq<byte>, m: seq<byte>, b: Block)
    requires ValidSchema(sch) && ValidTarget(sch, b.target) && b.size == TargetSize(sch, mem, b.src, b.target)
    ensures SlotsIn(sch, TargetSlots(sch, m, b.off, b.target), 0, b.size)
  {
    hide ValidSchema, TypeSlots, FieldSlots, ValidSlot, Size;
    TargetSlotsIn(sch, m, b.off, b.target);
  }

  lemma BlockConvertedKept(sch: Schema, msg: Message, x: seq<byte>, y: seq<byte>, b: Block, lo: nat, hi: nat)
    requires ValidSchema(sch) && BlockConverted(sch, msg, x, b) && |y| == |x|
    requires SameRange(x, y, lo, hi) && lo <= b.off && b.off + b.size <= hi
    requires exists mem :: b.size == TargetSize(sch, mem, b.src, b.target)
    ensures BlockConverted(sch, msg, y, b)
  {
    var mem :| b.size == TargetSize(sch, mem, b.src, b.target);
    ImageSlotsIn(sch, mem, msg.m, b);
    hide ValidSchema, ValidTarget, TargetSlots, LoadPtr, Relocated, ValidSlot;
    var ms := TargetSlots(sch, msg.m, b.off, b.target);
    forall i | 0 <= i < |ms|
      ensures LoadPtr(y, b.off + ms[i].rel) == Relocated(msg, ms[i].ptr)
    {
      LoadPtrSame(x, y, lo, hi, b.off + ms[i].rel);
    }
  }

  // ----- one slot

  lemma {:induction false} SlotTogether(
    sch: Schema, mem: seq<byte>, root: nat, f0: nat, nodes: set<Node>, msg: Message,
    slot: Slot, mslot: Slot, loc: nat, n: nat, s: EState, r: EState, d: DState)
    requires Valids(sch, [mslot], s) && ValidSlot(sch, mslot) && ValidSlot(sch, slot) && Emitting(sch, mem, root, f0, nodes, [slot], loc, n, s)
    requires r == EmitSlot(sch, mem, slot, loc, s) && r.outLen < POW64
    requires Final(msg, s, r, [slot], loc) && Poised(msg, s, r, [slot], [mslot], loc, d)
    ensures Arrived(sch, msg, s, r, [slot], [mslot], loc, d, ConvSlot(sch, msg, mslot, loc, d))
    decreases Unseen(s.addrs), if Descends(slot) then TargetRank(sch, slot.target) + 1 else 0, 0
  {
    hide ValidSchema, Emitting, Emitted, Final, Poised, Arrived, Find, TargetSize, TargetSlots, TargetFlat, Unseen, MaxRank, TargetRank, ValidSlot, ValidSlots, Follow, StorePtr, Emit, Conv, ConvSlot;
    EmitSlotMeaning(sch, mem, root, f0, nodes, slot, loc, n, s);
    match Decide(sch, mem, slot, s.addrs)
    case Leave => NullTogether(sch, mem, root, f0, nodes, msg, slot, mslot, loc, n, s, r, d);
    case Clear => NullTogether(sch, mem, root, f0, nodes, msg, slot, mslot, loc, n, s, r, d);
    case Reuse(_) => ReuseTogether(sch, mem, root, f0, nodes, msg, slot, mslot, loc, n, s, r, d);
    case New =>
      EmitSlotFrame(sch, mem, slot, loc, s);
      var s1 := Follow(sch, mem, slot, loc, s);
      var b := s1.log[|s.log|];
      if slot.target.CString? {
        FlatTextFacts(sch, slot);
        FollowState(sch, mem, root, f0, nodes, slot, loc, n, s);
        TextTogether(sch, mem, root, f0, nodes, msg, slot, mslot, loc, n, s, r, d);
      } else {
        DataSlot(sch, slot);
        var sub := TargetSlots(sch, mem, slot.ptr, slot.target);
        NewIsFollow(sch, mem, root, f0, nodes, slot, loc, n, s);
        FollowState(sch, mem, root, f0, nodes, slot, loc, n, s);
        Descent(sch, mem, slot, loc, s);
        SubEmitting(sch, mem, root, f0, nodes, slot, loc, n, s);
        EmitMeaning(sch, mem, root, f0, nodes, sub, b.off, b.size, s1);
        var d1 := DState(StorePtr(d.buf, loc + mslot.rel, Address(msg, b.off - s.delta)), b.off - s.delta);
        var msub := TargetSlots(sch, msg.m, b.off, slot.target);
        EnterObject(sch, mem, root, f0, nodes, msg, slot, mslot, loc, n, s, s1, r, d, d1);
        WalkTogether(sch, mem, root, f0, nodes, msg, sub, msub, b.off, b.size, s1, r, d1);
        LeaveObject(sch, mem, root, f0, nodes, msg, slot, mslot, loc, n, s, s1, r, d, d1, Conv(sch, msg, msub, b.off, d1));
      }
  }

  lemma FlatTextFacts(sch: Schema, slot: Slot)
    requires slot.target.CString?
    ensures TargetFlat(sch, slot.target)
  {
  }

  lemma DataSlot(sch: Schema, slot: Slot)
    requires ValidSlot(sch, slot) && !slot.target.CString?
    ensures slot.target.Data? && ValidTarget(sch, slot.target)
  {
  }

  /** A new object is followed by the emission of its slots, of which flat data has none. */
  lemma NewIsFollow(sch: Schema, mem: seq<byte>, root: nat, f0: nat, nodes: set<Node>, slot: Slot, loc: nat, n: nat, s: EState)
    requires ValidSchema(sch) && s.delta <= s.outLen && ValidSlot(sch, slot) && slot.target.Data?
    requires Emitting(sch, mem, root, f0, nodes, [slot], loc, n, s)
    requires Decide(sch, mem, slot, s.addrs).New? && EmitSlot(sch, mem, slot, loc, s).outLen < POW64
    ensures var s1 := Follow(sch, mem, slot, loc, s); var b := s1.log[|s.log|];
      && s1.outLen < POW64
      && EmitSlot(sch, mem, slot, loc, s) == Emit(sch, mem, TargetSlots(sch, mem, slot.ptr, slot.target), b.off, s1)
  {
    hide ValidSchema, TargetSize, TargetSlots, TargetFlat, ValidType, Follow, Find, Graph, LogOk, AddrsOk, SlotsClosed, SlotsIn;
    var s1 := Follow(sch, mem, slot, loc, s);
    var sub := TargetSlots(sch, mem, slot.ptr, slot.target);
    EmitFrame(sch, mem, sub, s1.log[|s.log|].tmp, s1);
    if TargetFlat(sch, slot.target) {
      FlatTargetNoSlots(sch, mem, slot.ptr, slot.target);
    }
    FollowState(sch, mem, root, f0, nodes, slot, loc, n, s);
  }

  lemma NullTogether(
    sch: Schema, mem: seq<byte>, root: nat, f0: nat, nodes: set<Node>, msg: Message,
    slot: Slot, mslot: Slot, loc: nat, n: nat, s: EState, r: EState, d: DState)
    requires Valids(sch, [mslot], s) && ValidSlot(sch, mslot) && Emitting(sch, mem, root, f0, nodes, [slot], loc, n, s)
    requires Emitted(sch, mem, root, nodes, [slot], loc, s, r) && r.log == s.log
    requires !Leads(sch, mem, slot)
    requires Final(msg, s, r, [slot], loc) && Poised(msg, s, r, [slot], [mslot], loc, d)
    ensures Arrived(sch, msg, s, r, [slot], [mslot], loc, d, ConvSlot(sch, msg, mslot, loc, d))
  {
    hide ValidSchema, Graph, Inv, BlocksOk, SlotClosed, ValidSlot, LoadPtr, Cur, TargetSlots, TargetSize, BlockConverted, Leads;
    assert SlotSet(sch, mem, r.buf, r.log, r.delta, [slot][0], loc);
    assert [mslot][0].rel == [slot][0].rel && [mslot][0].ptr == LoadPtr(msg.m, loc + [slot][0].rel);
    assert mslot.ptr == 0;
  }

  lemma StoredSlot(msg: Message, d: DState, mslot: Slot, loc: nat)
    requires mslot.ptr != 0 && loc + mslot.rel + 8 <= |d.buf| && Address(msg, mslot.ptr) < POW64
    ensures var x := StorePtr(d.buf, loc + mslot.rel, Address(msg, mslot.ptr));
      && ConvertedSlots(msg, x, [mslot], loc)
      && forall p :: 0 <= p < |d.buf| && OutsideSlots([mslot], loc, p) ==> x[p] == d.buf[p]
  {
    hide LoadPtr, StorePtr;
    LoadStorePtr(d.buf, loc + mslot.rel, Address(msg, mslot.ptr));
    var x := StorePtr(d.buf, loc + mslot.rel, Address(msg, mslot.ptr));
    forall p | 0 <= p < |d.buf| && OutsideSlots([mslot], loc, p)
      ensures x[p] == d.buf[p]
    {
      assert [mslot][0] == mslot;
    }
  }

  lemma ReuseTogether(
    sch: Schema, mem: seq<byte>, root: nat, f0: nat, nodes: set<Node>, msg: Message,
    slot: Slot, mslot: Slot, loc: nat, n: nat, s: EState, r: EState, d: DState)
    requires Valids(sch, [mslot], s) && ValidSlot(sch, mslot) && ValidSlot(sch, slot) && Emitting(sch, mem, root, f0, nodes, [slot], loc, n, s)
    requires Decide(sch, mem, slot, s.addrs).Reuse? && s.outLen < POW64
    requires r == s.(buf := StorePtr(s.buf, loc + slot.rel, Find(s.addrs, slot.ptr)))
    requires Final(msg, s, r, [slot], loc) && Poised(msg, s, r, [slot], [mslot], loc, d)
    ensures Arrived(sch, msg, s, r, [slot], [mslot], loc, d, ConvSlot(sch, msg, mslot, loc, d))
  {
    hide ValidSchema, Graph, Inv, SlotSet, SlotClosed, ValidSlot, LoadPtr, StorePtr, Cur, TargetSlots, TargetSize, BlockConverted, Find, SlotsAgree, PtrsOf;
    assert loc + [slot][0].rel + 8 <= |s.buf| && SlotClosed(sch, mem, root, [slot][0], nodes);
    ReuseSet(sch, mem, root, f0, nodes, slot, loc, s);
    NotRoot(sch, mem, root, f0, nodes, slot);
    ReuseBelowCur(sch, mem, root, nodes, s, slot);
    LoadStorePtr(s.buf, loc + slot.rel, Find(s.addrs, slot.ptr));
    SlotValue(msg, r, slot, mslot, loc, d);
    CurBelowEnd(sch, mem, root, nodes, s);
    StoredSlot(msg, d, mslot, loc);
    SameOutsideSlots([slot], [mslot], loc, |d.buf|);
    assert mslot.ptr == Find(s.addrs, slot.ptr);
    assert !mslot.target.CString? ==> mslot.ptr <= d.cur;
  }

  lemma NotRoot(sch: Schema, mem: seq<byte>, root: nat, f0: nat, nodes: set<Node>, slot: Slot)
    requires ValidSchema(sch) && Graph(sch, mem, root, f0, nodes) && ValidSlot(sch, slot) && slot.tracked
    requires SlotClosed(sch, mem, root, slot, nodes) && Leads(sch, mem, slot)
    ensures slot.ptr != root
  {
    hide NodeClosed, TargetSize;
    var m: Node := (slot.ptr, slot.target);
    assert m in nodes && Tracked(sch, m.1);
  }

  /** The decoder reads what the encoder stored. */
  lemma SlotValue(msg: Message, r: EState, slot: Slot, mslot: Slot, loc: nat, d: DState)
    requires SameShape([mslot], [slot]) && PtrsOf(msg.m, [mslot], loc) && SlotsAgree(msg.m, r.buf, [slot], loc)
    ensures mslot.ptr == LoadPtr(r.buf, loc + slot.rel) && mslot.rel == slot.rel && mslot.target == slot.target && mslot.tracked == slot.tracked
  {
    hide LoadPtr;
    assert [mslot][0] == mslot && [slot][0] == slot;
  }

  lemma SameOutsideSlots(x: seq<Slot>, y: seq<Slot>, loc: nat, n: nat)
    requires SameShape(y, x)
    ensures forall p :: 0 <= p < n && OutsideSlots(x, loc, p) ==> OutsideSlots(y, loc, p)
  {
  }

  lemma NewOffset(sch: Schema, mem: seq<byte>, root: nat, nodes: set<Node>, s: EState, r: EState, b: Block)
    requires Inv(sch, mem, root, nodes, s) && Contiguous(s) && |s.buf| <= b.off && r.log == s.log + [b] && r.delta == s.delta
    ensures b.off > s.delta && b.off - s.delta > Cur(s.log, s.delta)
    ensures Cur(r.log, r.delta) == if b.target.Data? then b.off - s.delta else Cur(s.log, s.delta)
  {
    hide LogOk, AddrsOk, Cur;
    CurBelowEnd(sch, mem, root, nodes, s);
    LogNonEmpty(sch, mem, root, nodes, s);
    CurStep(s.log, b, s.delta);
  }

  lemma TextTogether(
    sch: Schema, mem: seq<byte>, root: nat, f0: nat, nodes: set<Node>, msg: Message,
    slot: Slot, mslot: Slot, loc: nat, n: nat, s: EState, r: EState, d: DState)
    requires Valids(sch, [mslot], s) && ValidSlot(sch, mslot) && ValidSlot(sch, slot) && Emitting(sch, mem, root, f0, nodes, [slot], loc, n, s)
    requires Decide(sch, mem, slot, s.addrs).New? && slot.target.CString? && r == Follow(sch, mem, slot, loc, s) && r.outLen < POW64
    requires Final(msg, s, r, [slot], loc) && Poised(msg, s, r, [slot], [mslot], loc, d)
    ensures Arrived(sch, msg, s, r, [slot], [mslot], loc, d, ConvSlot(sch, msg, mslot, loc, d))
  {
    hide ValidSchema, Graph, Inv, SlotSet, SlotsClosed, ValidSlot, LoadPtr, StorePtr, Cur, TargetSize, Find, SlotsAgree, PtrsOf, Follow;
    FollowState(sch, mem, root, f0, nodes, slot, loc, n, s);
    var b := r.log[|s.log|];
    assert loc + [slot][0].rel + 8 <= |s.buf|;
    SlotValue(msg, r, slot, mslot, loc, d);
    NewOffset(sch, mem, root, nodes, s, r, b);
    StoredSlot(msg, d, mslot, loc);
    SameOutsideSlots([slot], [mslot], loc, |d.buf|);
    var d1 := ConvSlot(sch, msg, mslot, loc, d);
    assert d1.buf == StorePtr(d.buf, loc + mslot.rel, Address(msg, mslot.ptr));
    forall p | |s.buf| <= p < |r.buf|
      ensures d1.buf[p] == msg.m[p]
    {
      assert OutsideSlots([mslot], loc, p);
    }
    assert BlockConverted(sch, msg, d1.buf, b);
  }

  lemma EnterObject(
    sch: Schema, mem: seq<byte>, root: nat, f0: nat, nodes: set<Node>, msg: Message,
    slot: Slot, mslot: Slot, loc: nat, n: nat, s: EState, s1: EState, r: EState, d: DState, d1: DState)
    requires Valids(sch, [mslot], s) && ValidSlot(sch, mslot) && ValidSlot(sch, slot) && slot.target.Data? && Emitting(sch, mem, root, f0, nodes, [slot], loc, n, s)
    requires Decide(sch, mem, slot, s.addrs).New? && s1 == Follow(sch, mem, slot, loc, s) && s1.outLen < POW64 && r.outLen < POW64
    requires Emitted(sch, mem, root, nodes, [slot], loc, s, r)
    requires Emitted(sch, mem, root, nodes, TargetSlots(sch, mem, slot.ptr, slot.target), s1.log[|s.log|].off, s1, r)
    requires Final(msg, s, r, [slot], loc) && Poised(msg, s, r, [slot], [mslot], loc, d)
    requires var b := s1.log[|s.log|];
      b.off >= s.delta && d1 == DState(StorePtr(d.buf, loc + mslot.rel, Address(msg, b.off - s.delta)), b.off - s.delta)
    ensures var b := s1.log[|s.log|]; var sub := TargetSlots(sch, mem, slot.ptr, slot.target); var msub := TargetSlots(sch, msg.m, b.off, slot.target);
      && Valids(sch, msub, s1) && Final(msg, s1, r, sub, b.off) && Poised(msg, s1, r, sub, msub, b.off, d1)
      && ConvSlot(sch, msg, mslot, loc, d) == Conv(sch, msg, msub, b.off, d1)
      && mslot.ptr == b.off - s.delta && mslot.rel == slot.rel && b.off > s.delta && loc + slot.rel + 8 <= |s.buf|
      && SameShape([mslot], [slot]) && SameShape(msub, sub)
  {
    hide ValidSchema, Graph, Inv, SlotSet, SlotsClosed, ValidSlot, ValidSlots, LoadPtr, StorePtr, Cur, TargetSize, TargetSlots, ValidType, Find, PtrsOf, Follow, BlockOk, Conv;
    FollowState(sch, mem, root, f0, nodes, slot, loc, n, s);
    var b := s1.log[|s.log|];
    DataSlot(sch, slot);
    var sub := TargetSlots(sch, mem, slot.ptr, slot.target);
    var msub := TargetSlots(sch, msg.m, b.off, slot.target);
    assert loc + [slot][0].rel + 8 <= |s.buf|;
    var a := loc + slot.rel;
    TargetSlotsIn(sch, mem, slot.ptr, slot.target);
    forall p | 0 <= p < |s.buf|
      ensures OutsideSlots(sub, b.off, p)
    {
    }
    LoadPtrSame(s1.buf, r.buf, a, a + 8, a);
    SlotValue(msg, r, slot, mslot, loc, d);
    NewOffset(sch, mem, root, nodes, s, s1, b);
    ImageShape(sch, mem, msg, s, s1, r, slot, b);
    TargetSlotsPtrs(sch, msg.m, b.off, slot.target);
    assert PtrsOf(msg.m, msub, b.off) by { PtrsFromOf(msg.m, msub, b.off); }
    forall i | 0 <= i < |sub|
      ensures LoadPtr(msg.m, b.off + sub[i].rel) == LoadPtr(r.buf, b.off + sub[i].rel)
      ensures LoadPtr(d1.buf, b.off + sub[i].rel) == LoadPtr(msg.m, b.off + sub[i].rel)
    {
      LoadPtrSame(msg.m, r.buf, |s.buf|, |r.buf|, b.off + sub[i].rel);
      LoadPtrSame(d1.buf, msg.m, |s.buf|, |r.buf|, b.off + sub[i].rel);
    }
  }

  lemma PtrsFromOf(m: seq<byte>, x: seq<Slot>, p: nat)
    requires PtrsFrom(m, x, p)
    ensures PtrsOf(m, x, p)
  {
  }

  /** The new object and its image in the finished message have one shape. */
  lemma ImageShape(sch: Schema, mem: seq<byte>, msg: Message, s: EState, s1: EState, r: EState, slot: Slot, b: Block)
    requires ValidSchema(sch) && ValidTarget(sch, slot.target)
    requires BlocksOk(sch, mem, r.buf, r.log, r.delta, |s.log|) && s1.log <= r.log && |s.log| < |s1.log| && s1.log[|s.log|] == b
    requires b.src == slot.ptr && b.target == slot.target && b.size == TargetSize(sch, mem, b.src, b.target)
    requires SameRange(msg.m, r.buf, |s.buf|, |r.buf|) && |s.buf| <= b.off
    ensures SameShape(TargetSlots(sch, msg.m, b.off, slot.target), TargetSlots(sch, mem, slot.ptr, slot.target))
    ensures b.off + b.size <= |r.buf|
  {
    hide ValidSchema, TargetSize, TargetSlots, ValidTarget, SlotsSet;
    assert BlockOk(sch, mem, r.buf, r.log, r.delta, r.log[|s.log|]);
    var sub := TargetSlots(sch, mem, slot.ptr, slot.target);
    forall q | 0 <= q < b.size && OutsideSlots(sub, 0, q)
      ensures msg.m[b.off + q] == At(mem, b.src + q)
    {
      assert OutsideSlots(sub, b.off, b.off + q);
      assert r.buf[b.off + q] == Load(mem, b.src, b.size)[q];
    }
    TargetShape(sch, msg.m, b.off, mem, b.src, b.target);
  }

  lemma LeaveObject(
    sch: Schema, mem: seq<byte>, root: nat, f0: nat, nodes: set<Node>, msg: Message,
    slot: Slot, mslot: Slot, loc: nat, n: nat, s: EState, s1: EState, r: EState, d: DState, d1: DState, d2: DState)
    requires ValidSchema(sch) && ValidSlot(sch, slot) && slot.target.Data? && Emitting(sch, mem, root, f0, nodes, [slot], loc, n, s)
    requires Decide(sch, mem, slot, s.addrs).New? && s1 == Follow(sch, mem, slot, loc, s) && s1.outLen < POW64
    requires Emitted(sch, mem, root, nodes, TargetSlots(sch, mem, slot.ptr, slot.target), s1.log[|s.log|].off, s1, r)
    requires Final(msg, s, r, [slot], loc) && Poised(msg, s, r, [slot], [mslot], loc, d)
    requires var b := s1.log[|s.log|];
      && b.off > s.delta && mslot.ptr == b.off - s.delta && mslot.rel == slot.rel && SameShape([mslot], [slot])
      && d1 == DState(StorePtr(d.buf, loc + mslot.rel, Address(msg, mslot.ptr)), mslot.ptr)
      && SameShape(TargetSlots(sch, msg.m, b.off, slot.target), TargetSlots(sch, mem, slot.ptr, slot.target))
      && Arrived(sch, msg, s1, r, TargetSlots(sch, mem, slot.ptr, slot.target), TargetSlots(sch, msg.m, b.off, slot.target), b.off, d1, d2)
    ensures Arrived(sch, msg, s, r, [slot], [mslot], loc, d, d2)
  {
    hide ValidSchema, Graph, Inv, SlotSet, SlotsClosed, ValidSlot, ValidSlots, LoadPtr, StorePtr, Cur, TargetSize, TargetSlots, ValidType, Find, Follow, BlockOk, Relocated;
    FollowState(sch, mem, root, f0, nodes, slot, loc, n, s);
    var b := s1.log[|s.log|];
    DataSlot(sch, slot);
    var sub := TargetSlots(sch, mem, slot.ptr, slot.target);
    var msub := TargetSlots(sch, msg.m, b.off, slot.target);
    assert loc + [slot][0].rel + 8 <= |s.buf|;
    var a := loc + slot.rel;
    TargetSlotsIn(sch, mem, slot.ptr, slot.target);
    forall p | 0 <= p < |s.buf| || |r.buf| <= p
      ensures OutsideSlots(sub, b.off, p)
    {
    }
    assert b.off + b.size <= |r.buf|;
    StoredSlot(msg, d, mslot, loc);
    SameOutsideSlots([slot], [mslot], loc, |d.buf|);
    LoadPtrSame(d1.buf, d2.buf, a, a + 8, a);
    assert LoadPtr(d1.buf, loc + [mslot][0].rel) == Relocated(msg, [mslot][0].ptr);
    SameOutsideSlots(msub, sub, b.off, |d.buf|);
    forall p | b.off <= p < b.off + b.size && OutsideSlots(msub, b.off, p)
      ensures d2.buf[p] == msg.m[p]
    {
      assert OutsideSlots([mslot], loc, p);
      assert OutsideSlots(sub, b.off, p);
    }
    assert BlockConverted(sch, msg, d2.buf, b);
    assert r.log[|s.log|] == b;
    forall k | |s.log| <= k < |r.log|
      ensures BlockConverted(sch, msg, d2.buf, r.log[k])
    {
    }
    forall p | 0 <= p < |d.buf| && (p < |s.buf| || |r.buf| <= p) && OutsideSlots([slot], loc, p)
      ensures d2.buf[p] == d.buf[p]
    {
      assert OutsideSlots([mslot], loc, p);
    }
  }
}
