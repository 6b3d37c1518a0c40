/** Which parts of the image a conversion can have touched: slots it was given, and objects
    beyond every offset entered so far. */
module DecodeFrame {
  import opened Bytes
  import opened Formats
  import opened ObjectGraph
  import opened EncodeSpec
  import opened EncodeFrame
  import opened EncodeReady
  import opened EncodeMeaning
  import opened DecodeSpec

  /** Where the first object past position x starts. */
  function Frontier(objs: seq<Block>, x: nat, end: nat): nat {
    if objs == [] then end
    else if objs[0].off > x then objs[0].off
    else Frontier(objs[1..], x, end)
  }

  /** A pointer of the message leads to an object of the list, of the type it says. */
  ghost predicate Placed(msg: Message, objs: seq<Block>, slot: Slot) {
    slot.ptr != 0 && slot.target.Data? ==>
      exists k :: 0 <= k < |objs| && objs[k].off == msg.delta + slot.ptr && objs[k].target == slot.target
  }

  ghost predicate AllPlaced(msg: Message, objs: seq<Block>, slots: seq<Slot>) {
    forall i :: 0 <= i < |slots| ==> Placed(msg, objs, slots[i])
  }

  /** Objects of a message: apart, in order, 8-aligned unless strings, closed under pointers. */
  ghost predicate Layout(sch: Schema, msg: Message, objs: seq<Block>)
    requires ValidSchema(sch)
  {
    && msg.delta % 8 == 0 && msg.base % 8 == 0 && msg.base + |msg.m| < POW64
    && (forall k, l :: 0 <= k < l < |objs| ==> objs[k].off + objs[k].size <= objs[l].off && objs[k].off < objs[l].off)
    && (forall k :: 0 <= k < |objs| ==> ObjectLaid(sch, msg, objs, k))
  }

  ghost predicate ObjectLaid(sch: Schema, msg: Message, objs: seq<Block>, k: nat)
    requires ValidSchema(sch) && k < |objs|
  {
    var b := objs[k];
    && ValidTarget(sch, b.target) && b.off + b.size <= |msg.m|
    && (b.target.Data? ==> b.off % 8 == 0 && b.size == Size(sch, b.target.typ, []))
    && SlotsIn(sch, TargetSlots(sch, msg.m, b.off, b.target), 0, b.size)
    && AllPlaced(msg, objs, TargetSlots(sch, msg.m, b.off, b.target))
  }

  lemma {:induction false} FrontierBounds(sch: Schema, msg: Message, objs: seq<Block>, x: nat)
    requires forall k, l :: 0 <= k < l < |objs| ==> objs[k].off + objs[k].size <= objs[l].off && objs[k].off < objs[l].off
    requires forall k :: 0 <= k < |objs| ==> objs[k].off + objs[k].size <= |msg.m|
    ensures forall k :: 0 <= k < |objs| && objs[k].off > x ==> Frontier(objs, x, |msg.m|) <= objs[k].off
    ensures forall k :: 0 <= k < |objs| && objs[k].off <= x ==> objs[k].off + objs[k].size <= Frontier(objs, x, |msg.m|)
    ensures Frontier(objs, x, |msg.m|) <= |msg.m|
  {
    if objs != [] && objs[0].off <= x {
      var rest := objs[1..];
      assert forall k :: 1 <= k < |objs| ==> objs[k] == rest[k - 1];
      FrontierBounds(sch, msg, rest, x);
      if rest != [] && Frontier(rest, x, |msg.m|) != |msg.m| {
        FrontierIsObject(rest, x, |msg.m|);
      }
    }
  }

  lemma {:induction false} FrontierIsObject(objs: seq<Block>, x: nat, end: nat)
    ensures Frontier(objs, x, end) == end || exists k :: 0 <= k < |objs| && objs[k].off == Frontier(objs, x, end)
  {
    if objs != [] && objs[0].off <= x {
      FrontierIsObject(objs[1..], x, end);
      if Frontier(objs[1..], x, end) != end {
        var k :| 0 <= k < |objs[1..]| && objs[1..][k].off == Frontier(objs[1..], x, end);
        assert objs[k + 1].off == Frontier(objs, x, end);
      }
    }
  }

  lemma {:induction false} FrontierMonotone(objs: seq<Block>, x: nat, y: nat, end: nat)
    requires x <= y
    requires forall k :: 0 <= k < |objs| ==> objs[k].off <= end
    requires forall k, l :: 0 <= k < l < |objs| ==> objs[k].off < objs[l].off
    ensures Frontier(objs, x, end) <= Frontier(objs, y, end)
  {
    if objs != [] {
      var rest := objs[1..];
      assert forall k :: 1 <= k < |objs| ==> objs[k] == rest[k - 1];
      FrontierMonotone(rest, x, y, end);
      if objs[0].off > x && objs[0].off <= y {
        FrontierIsObject(rest, y, end);
      }
    }
  }

  function Edge(msg: Message, objs: seq<Block>, cur: nat): nat {
    Frontier(objs, msg.delta + cur, |msg.m|)
  }

  ghost predicate ConvTouches(msg: Message, objs: seq<Block>, slots: seq<Slot>, loc: nat, d: DState, r: DState) {
    && |r.buf| == |d.buf| && d.cur <= r.cur
    && Edge(msg, objs, d.cur) <= Edge(msg, objs, r.cur)
    && (forall p :: 0 <= p < |d.buf| && OutsideSlots(slots, loc, p) && (p < Edge(msg, objs, d.cur) || Edge(msg, objs, r.cur) <= p) ==> r.buf[p] == d.buf[p])
  }

  lemma EdgeMonotone(sch: Schema, msg: Message, objs: seq<Block>, x: nat, y: nat)
    requires ValidSchema(sch) && Layout(sch, msg, objs) && x <= y
    ensures Edge(msg, objs, x) <= Edge(msg, objs, y)
  {
    hide ValidSchema;
    forall k | 0 <= k < |objs|
      ensures objs[k].off <= |msg.m|
    {
      assert ObjectLaid(sch, msg, objs, k);
    }
    FrontierMonotone(objs, msg.delta + x, msg.delta + y, |msg.m|);
  }

  /** An object ahead lies between the old edge and the one that entering it sets. */
  lemma ObjectAhead(sch: Schema, msg: Message, objs: seq<Block>, k: nat, cur: nat)
    requires ValidSchema(sch) && Layout(sch, msg, objs) && k < |objs| && objs[k].off > msg.delta + cur
    ensures Edge(msg, objs, cur) <= objs[k].off
    ensures objs[k].off + objs[k].size <= Edge(msg, objs, objs[k].off - msg.delta)
  {
    hide ValidSchema;
    forall j | 0 <= j < |objs|
      ensures objs[j].off + objs[j].size <= |msg.m|
    {
      assert ObjectLaid(sch, msg, objs, j);
    }
    FrontierBounds(sch, msg, objs, msg.delta + cur);
    FrontierBounds(sch, msg, objs, objs[k].off);
  }

  lemma {:induction false} ConvFrame(sch: Schema, msg: Message, objs: seq<Block>, slots: seq<Slot>, loc: nat, d: DState)
    requires ValidSchema(sch) && ValidSlots(sch, slots) && Layout(sch, msg, objs) && AllPlaced(msg, objs, slots)
    ensures ConvTouches(msg, objs, slots, loc, d, Conv(sch, msg, slots, loc, d))
    decreases Remaining(d.cur), |slots| + 1
  {
    hide ValidSchema, Layout, Placed, ConvSlot, ValidSlot, Edge;
    if slots != [] {
      var d1 := ConvSlot(sch, msg, slots[0], loc, d);
      ConvSlotFrame(sch, msg, objs, slots[0], loc, d);
      assert AllPlaced(msg, objs, slots[1..]);
      ConvFrame(sch, msg, objs, slots[1..], loc, d1);
      forall p | 0 <= p < |d.buf| && OutsideSlots(slots, loc, p)
        ensures OutsideSlots([slots[0]], loc, p) && OutsideSlots(slots[1..], loc, p)
      {
      }
    }
  }

  lemma {:induction false} ConvSlotFrame(sch: Schema, msg: Message, objs: seq<Block>, slot: Slot, loc: nat, d: DState)
    requires ValidSchema(sch) && ValidSlot(sch, slot) && Layout(sch, msg, objs) && Placed(msg, objs, slot)
    ensures ConvTouches(msg, objs, [slot], loc, d, ConvSlot(sch, msg, slot, loc, d))
    decreases Remaining(d.cur), 0
  {
    hide ValidSchema, ValidTarget, Edge, Conv, TargetSlots, StorePtr;
    if slot.ptr != 0 {
      var d1 := d.(buf := StorePtr(d.buf, loc + slot.rel, Address(msg, slot.ptr)));
      forall p | 0 <= p < |d.buf| && OutsideSlots([slot], loc, p)
        ensures d1.buf[p] == d.buf[p]
      {
        assert [slot][0] == slot;
      }
      if slot.target.Data? && slot.ptr > d.cur {
        var k :| 0 <= k < |objs| && objs[k].off == msg.delta + slot.ptr && objs[k].target == slot.target;
        assert ObjectLaid(sch, msg, objs, k);
        var sub := TargetSlots(sch, msg.m, objs[k].off, slot.target);
        var d2 := d1.(cur := slot.ptr);
        EdgeMonotone(sch, msg, objs, d.cur, slot.ptr);
        ObjectAhead(sch, msg, objs, k, d.cur);
        ConvFrame(sch, msg, objs, sub, objs[k].off, d2);
        SubOutside(sch, sub, objs[k].off, objs[k].size, Edge(msg, objs, d.cur), Edge(msg, objs, slot.ptr), |d.buf|);
      }
    }
  }

  lemma SubOutside(sch: Schema, sub: seq<Slot>, off: nat, n: nat, lo: nat, hi: nat, len: nat)
    requires SlotsIn(sch, sub, 0, n) && lo <= off && off + n <= hi
    ensures forall p :: 0 <= p < len && (p < lo || hi <= p) ==> OutsideSlots(sub, off, p)
  {
  }

  // ----- readiness of unconverted data

  /** Bytes lo to hi are as received and lie in objects already entered. */
  ghost predicate Ready(msg: Message, objs: seq<Block>, d: DState, lo: nat, hi: nat) {
    && hi <= Edge(msg, objs, d.cur) && Edge(msg, objs, d.cur) <= |msg.m| && |d.buf| == |msg.m|
    && forall p :: lo <= p < hi ==> d.buf[p] == msg.m[p]
  }

  /** Everything beyond the objects entered is as received. */
  ghost predicate AheadUnread(msg: Message, objs: seq<Block>, d: DState) {
    && |d.buf| == |msg.m|
    && forall p :: Edge(msg, objs, d.cur) <= p < |msg.m| ==> d.buf[p] == msg.m[p]
  }

  lemma ReadyPtr(msg: Message, objs: seq<Block>, d: DState, lo: nat, hi: nat, a: nat)
    requires Ready(msg, objs, d, lo, hi) && lo <= a && a + 8 <= hi
    ensures LoadPtr(d.buf, a) == LoadPtr(msg.m, a)
  {
    assert d.buf[a..a + 8] == msg.m[a..a + 8];
  }

  /** Converting one part of an object leaves a later part, and all that lies ahead, ready. */
  lemma ReadyStep(sch: Schema, msg: Message, objs: seq<Block>, slots: seq<Slot>, loc: nat, d: DState, lo: nat, m: nat, hi: nat, m2: nat)
    requires ValidSchema(sch) && ValidSlots(sch, slots) && Layout(sch, msg, objs) && AllPlaced(msg, objs, slots)
    requires loc <= lo <= m <= m2 <= hi && SlotsIn(sch, slots, lo - loc, m - loc)
    requires Ready(msg, objs, d, lo, hi) && AheadUnread(msg, objs, d)
    ensures var r := Conv(sch, msg, slots, loc, d);
      Ready(msg, objs, r, m2, hi) && AheadUnread(msg, objs, r)
  {
    hide ValidSchema, ValidSlots, Layout, AllPlaced, Edge, Conv;
    ConvFrame(sch, msg, objs, slots, loc, d);
    var r := Conv(sch, msg, slots, loc, d);
    forall p | m <= p < |msg.m|
      ensures OutsideSlots(slots, loc, p)
    {
    }
    EdgeWithin(sch, msg, objs, r.cur);
  }

  lemma EdgeWithin(sch: Schema, msg: Message, objs: seq<Block>, cur: nat)
    requires ValidSchema(sch) && Layout(sch, msg, objs)
    ensures Edge(msg, objs, cur) <= |msg.m|
  {
    hide ValidSchema;
    forall j | 0 <= j < |objs|
      ensures objs[j].off + objs[j].size <= |msg.m|
    {
      assert ObjectLaid(sch, msg, objs, j);
    }
    FrontierBounds(sch, msg, objs, msg.delta + cur);
  }

  lemma PlacedParts(msg: Message, objs: seq<Block>, x: seq<Slot>, y: seq<Slot>)
    requires AllPlaced(msg, objs, x + y)
    ensures AllPlaced(msg, objs, x) && AllPlaced(msg, objs, y)
  {
    hide Placed;
    assert forall i :: 0 <= i < |x| ==> x[i] == (x + y)[i];
    assert forall i :: 0 <= i < |y| ==> y[i] == (x + y)[|x| + i];
  }

  /** Entering the object a pointer leads to. */
  lemma Enter(sch: Schema, msg: Message, objs: seq<Block>, slot: Slot, loc: nat, d: DState, d2: DState) returns (k: nat)
    requires ValidSchema(sch) && ValidSlot(sch, slot) && Layout(sch, msg, objs) && Placed(msg, objs, slot)
    requires slot.target.Data? && slot.ptr > d.cur
    requires Ready(msg, objs, d, loc + slot.rel, loc + slot.rel + 8) && AheadUnread(msg, objs, d)
    requires d2 == DState(StorePtr(d.buf, loc + slot.rel, Address(msg, slot.ptr)), slot.ptr)
    ensures k < |objs| && objs[k].off == msg.delta + slot.ptr && objs[k].target == slot.target
    ensures Ready(msg, objs, d2, objs[k].off, objs[k].off + objs[k].size) && AheadUnread(msg, objs, d2)
    ensures SlotsIn(sch, TargetSlots(sch, msg.m, objs[k].off, slot.target), 0, objs[k].size)
    ensures AllPlaced(msg, objs, TargetSlots(sch, msg.m, objs[k].off, slot.target))
    ensures slot.ptr % 8 == 0 && objs[k].size == Size(sch, slot.target.typ, [])
  {
    hide ValidSchema, ValidTarget, Edge, TargetSlots, AllPlaced, SlotsIn, Size, StorePtr, ValidSlot;
    k :| 0 <= k < |objs| && objs[k].off == msg.delta + slot.ptr && objs[k].target == slot.target;
    assert ObjectLaid(sch, msg, objs, k);
    EdgeMonotone(sch, msg, objs, d.cur, slot.ptr);
    EdgeWithin(sch, msg, objs, slot.ptr);
    ObjectAhead(sch, msg, objs, k, d.cur);
  }

  lemma PlacedAligned(sch: Schema, msg: Message, objs: seq<Block>, slot: Slot)
    requires ValidSchema(sch) && Layout(sch, msg, objs) && Placed(msg, objs, slot) && slot.target.Data?
    ensures slot.ptr % 8 == 0
  {
    hide ValidSchema, ValidTarget, AllPlaced, SlotsIn, TargetSlots, Size;
    if slot.ptr != 0 {
      var k :| 0 <= k < |objs| && objs[k].off == msg.delta + slot.ptr && objs[k].target == slot.target;
      assert ObjectLaid(sch, msg, objs, k);
    }
  }
}
