/** Decoding in place what the encoder produced rebuilds the object graph. */
module RoundTrip {
  import opened Bytes
  import opened Formats
  import opened ObjectGraph
  import opened EncodeSpec
  import opened EncodeFrame
  import opened EncodeReady
  import opened EncodeMeaning
  import opened DecodeSpec
  import opened Lockstep
  import opened DecodeFrame

  /** Everything a round trip starts from: a registered record format with pointers, and a
      graph of objects whose encoding fits the address space at a place aligned to 8. */
  ghost predicate Encodable(sch: Schema, f: nat, id: seq<byte>, mem: seq<byte>, root: nat, nodes: set<Node>, junk: byte, base: nat) {
    && ValidSchema(sch) && f < |sch| && sch[f].variant && sch[f].recordLength > 0
    && Graph(sch, mem, root, f, nodes)
    && base % 8 == 0
    && base + Encode(sch, f, id, mem, root, true, junk).outLen < POW64
  }

  /** The record after the walk, before the length is filled in. */
  function Walked(sch: Schema, f: nat, id: seq<byte>, mem: seq<byte>, root: nat, junk: byte): EState
    requires ValidSchema(sch) && f < |sch| && sch[f].variant
  {
    var s := AfterStart(sch, f, id, mem, root, true, junk);
    Emit(sch, mem, TargetSlots(sch, mem, root, Record(f)), HeaderSize(|id|, true), s)
  }

  function MessageOf(sch: Schema, f: nat, id: seq<byte>, mem: seq<byte>, root: nat, junk: byte, base: nat): Message
    requires ValidSchema(sch) && f < |sch|
  {
    Message(Encode(sch, f, id, mem, root, true, junk).buf, HeaderSize(|id|, true), base)
  }

  lemma StartEmitting(sch: Schema, f: nat, id: seq<byte>, mem: seq<byte>, root: nat, nodes: set<Node>, junk: byte, base: nat)
    requires Encodable(sch, f, id, mem, root, nodes, junk, base)
    ensures var s := AfterStart(sch, f, id, mem, root, true, junk); var h := HeaderSize(|id|, true);
      && Emitting(sch, mem, root, f, nodes, TargetSlots(sch, mem, root, Record(f)), h, sch[f].recordLength, s)
      && |s.log| == 1 && s.log[0] == Block(root, h, sch[f].recordLength, false, Record(f), true, h) && s.delta == h
      && Encode(sch, f, id, mem, root, true, junk) == Walked(sch, f, id, mem, root, junk).(buf := Store(Walked(sch, f, id, mem, root, junk).buf, |id|, ToLE(Walked(sch, f, id, mem, root, junk).outLen - h, 8)))
      && |id| + 8 <= h && h <= |s.buf| && CopyAt(s.buf, h, mem, root, sch[f].recordLength)
      && Walked(sch, f, id, mem, root, junk).outLen >= h
  {
    hide ValidSchema, FieldSlots, AfterBase, HeaderSize, Header, PadTo, Emit;
    var s := AfterStart(sch, f, id, mem, root, true, junk);
    StartShape(sch, f, id, mem, root, true, junk);
    StartContiguous(sch, f, id, mem, root, junk);
    StartInv(sch, f, mem, root, nodes, s, HeaderSize(|id|, true));
    TargetSlotsIn(sch, mem, root, Record(f));
    CopyFresh(sch, mem, s.buf, root, Record(f), HeaderSize(|id|, true), sch[f].recordLength);
    assert NodeClosed(sch, mem, root, (root, Record(f)), nodes);
  }

  lemma StartContiguous(sch: Schema, f: nat, id: seq<byte>, mem: seq<byte>, root: nat, junk: byte)
    requires f < |sch| && sch[f].variant
    ensures var s := AfterStart(sch, f, id, mem, root, true, junk);
      s.copyAll && |s.iov| > 0 && s.iov[|s.iov| - 1].Tmp?
  {
    hide HeaderSize, Header;
    BaseShape(sch, f, id, mem, root, true, junk);
    var s1 := AfterBase(sch, f, id, mem, root, true, junk);
    AlignEmpty(if sch[f].recursive then s1.(addrs := [Entry(root, s1.log[0].off)]) else s1);
  }

  lemma StartInv(sch: Schema, f: nat, mem: seq<byte>, root: nat, nodes: set<Node>, s: EState, h: nat)
    requires f < |sch| && (root, Record(f)) in nodes && sch[f].recordLength > 0
    requires |s.log| == 1 && s.log[0] == Block(root, h, sch[f].recordLength, false, Record(f), true, h)
    requires s.delta == h && h % 8 == 0 && s.outLen >= h + sch[f].recordLength
    requires s.addrs == if sch[f].recursive then [Entry(root, h)] else []
    ensures Inv(sch, mem, root, nodes, s)
  {
    assert BlockShape(sch, mem, s, 0, nodes);
  }

  /** The object at index k of the list is in the decoded image, byte for byte outside its
      pointers; each pointer is NULL or the address where the object it led to now is. */
  ghost predicate Rebuilt(sch: Schema, mem: seq<byte>, image: seq<byte>, base: nat, objs: seq<Block>, k: nat)
    requires ValidSchema(sch) && k < |objs|
  {
    var b := objs[k];
    && ValidTarget(sch, b.target) && b.size == TargetSize(sch, mem, b.src, b.target) && b.off + b.size <= |image|
    && var slots := TargetSlots(sch, mem, b.src, b.target);
       && (forall i :: 0 <= i < b.size && OutsideSlots(slots, b.off, b.off + i) ==> image[b.off + i] == Load(mem, b.src, b.size)[i])
       && (forall i :: 0 <= i < |slots| ==> PointerRebuilt(sch, mem, image, base, objs, slots[i], b.off))
  }

  ghost predicate PointerRebuilt(sch: Schema, mem: seq<byte>, image: seq<byte>, base: nat, objs: seq<Block>, slot: Slot, loc: nat) {
    var q := LoadPtr(image, loc + slot.rel);
    if Leads(sch, mem, slot) then exists j :: 0 < j < |objs| && PointsTo(objs[j], slot) && q == base + objs[j].off
    else q == 0
  }

  /** The decoded graph is the original one: the root record leads the list of objects,
      which lie apart from each other; every object is rebuilt; an address whose sharing is
      tracked has one copy, so tracked pointers that were equal (or formed a cycle) still
      are (do). */
  ghost predicate SameGraph(sch: Schema, f: nat, mem: seq<byte>, root: nat, image: seq<byte>, base: nat, objs: seq<Block>)
    requires ValidSchema(sch)
  {
    && |objs| > 0 && objs[0].src == root && objs[0].target == Record(f)
    && (forall k :: 0 <= k < |objs| ==> Rebuilt(sch, mem, image, base, objs, k))
    && (forall k, l :: 0 <= k < l < |objs| ==> objs[k].off + objs[k].size <= objs[l].off)
    && (forall k, l :: 0 <= k < l < |objs| && objs[k].tracked && objs[l].tracked ==> objs[k].src != objs[l].src)
    && (forall k :: 0 < k < |objs| ==> objs[k].tracked == Tracked(sch, objs[k].target))
  }

  /** The round trip, for every memory, shared and cyclic pointers included. */
  lemma DecodeEncode(sch: Schema, f: nat, id: seq<byte>, mem: seq<byte>, root: nat, nodes: set<Node>, junk: byte, base: nat)
    requires Encodable(sch, f, id, mem, root, nodes, junk, base)
    ensures var msg := MessageOf(sch, f, id, mem, root, junk, base);
      var d := Conv(sch, msg, TargetSlots(sch, msg.m, msg.delta, Record(f)), msg.delta, DState(msg.m, 0));
      SameGraph(sch, f, mem, root, d.buf, base, Encode(sch, f, id, mem, root, true, junk).log)
      && Encode(sch, f, id, mem, root, true, junk).log[0].off == msg.delta
  {
    hide ValidSchema, AfterStart, HeaderSize, Emit, FieldSlots, Emitting, Emitted, Final, Poised, Arrived, Conv, Graph, Encode, SameGraph;
    StartEmitting(sch, f, id, mem, root, nodes, junk, base);
    var s := AfterStart(sch, f, id, mem, root, true, junk);
    var e := Walked(sch, f, id, mem, root, junk);
    var slots := TargetSlots(sch, mem, root, Record(f));
    var msg := MessageOf(sch, f, id, mem, root, junk, base);
    var h := msg.delta;
    EmitMeaning(sch, mem, root, f, nodes, slots, h, sch[f].recordLength, s);
    var mslots := TargetSlots(sch, msg.m, h, Record(f));
    var d0 := DState(msg.m, 0);
    StartPoised(sch, f, mem, root, nodes, msg, slots, mslots, s, e, |id|);
    StartDelta(sch, mem, root, f, nodes, slots, h, sch[f].recordLength, s);
    WalkTogether(sch, mem, root, f, nodes, msg, slots, mslots, h, sch[f].recordLength, s, e, d0);
    Finish(sch, f, mem, root, nodes, msg, slots, mslots, s, e, |id|, d0, Conv(sch, msg, mslots, h, d0));
  }

  lemma StartDelta(sch: Schema, mem: seq<byte>, root: nat, f0: nat, nodes: set<Node>, slots: seq<Slot>, loc: nat, n: nat, s: EState)
    requires Emitting(sch, mem, root, f0, nodes, slots, loc, n, s)
    ensures s.delta <= s.outLen
  {
    hide ValidSchema, Graph, Inv, SlotsIn, SlotsClosed;
  }

  /** Root record and message as the joint walk starts. */
  lemma StartPoised(sch: Schema, f: nat, mem: seq<byte>, root: nat, nodes: set<Node>, msg: Message,
                    slots: seq<Slot>, mslots: seq<Slot>, s: EState, e: EState, idLen: nat)
    requires ValidSchema(sch) && f < |sch| && slots == TargetSlots(sch, mem, root, Record(f)) && mslots == TargetSlots(sch, msg.m, msg.delta, Record(f))
    requires Emitting(sch, mem, root, f, nodes, slots, msg.delta, sch[f].recordLength, s)
    requires CopyAt(s.buf, msg.delta, mem, root, sch[f].recordLength)
    requires |s.log| == 1 && s.delta == msg.delta && s.log[0] == Block(root, msg.delta, sch[f].recordLength, false, Record(f), true, msg.delta)
    requires Emitted(sch, mem, root, nodes, slots, msg.delta, s, e)
    requires idLen + 8 <= msg.delta <= |s.buf| && e.outLen >= msg.delta && msg.m == Store(e.buf, idLen, ToLE(e.outLen - msg.delta, 8))
    requires msg.base + e.outLen < POW64
    ensures Final(msg, s, e, slots, msg.delta)
    ensures Poised(msg, s, e, slots, mslots, msg.delta, DState(msg.m, 0))
    ensures RootKept(sch, f, mem, root, e.buf, msg.delta)
  {
    hide ValidSchema, Graph, Inv, FieldSlots, SlotsClosed, BlocksOk, SlotsSet, LoadPtr, Store;
    var h := msg.delta;
    var n := sch[f].recordLength;
    TargetSlotsIn(sch, mem, root, Record(f));
    forall i | 0 <= i < |slots|
      ensures LoadPtr(msg.m, h + slots[i].rel) == LoadPtr(e.buf, h + slots[i].rel)
    {
      LoadPtrSame(msg.m, e.buf, h, h + n, h + slots[i].rel);
    }
    RootBytes(sch, f, mem, root, nodes, slots, s, e, h);
    forall q | 0 <= q < n && OutsideSlots(slots, 0, q)
      ensures msg.m[h + q] == At(mem, root + q)
    {
      assert OutsideSlots(slots, h, h + q);
      assert e.buf[h + q] == Load(mem, root, n)[q];
    }
    TargetShape(sch, msg.m, h, mem, root, Record(f));
    TargetSlotsPtrs(sch, msg.m, h, Record(f));
    PtrsFromOf(msg.m, mslots, h);
  }

  ghost predicate RootKept(sch: Schema, f: nat, mem: seq<byte>, root: nat, buf: seq<byte>, h: nat)
    requires ValidSchema(sch) && f < |sch|
  {
    && h + sch[f].recordLength <= |buf|
    && forall i :: 0 <= i < sch[f].recordLength && OutsideSlots(TargetSlots(sch, mem, root, Record(f)), h, h + i) ==>
         buf[h + i] == Load(mem, root, sch[f].recordLength)[i]
  }

  lemma RootBytes(sch: Schema, f: nat, mem: seq<byte>, root: nat, nodes: set<Node>, slots: seq<Slot>, s: EState, e: EState, h: nat)
    requires ValidSchema(sch) && f < |sch| && slots == TargetSlots(sch, mem, root, Record(f))
    requires CopyAt(s.buf, h, mem, root, sch[f].recordLength) && SameBut(s.buf, e.buf, slots, h)
    ensures RootKept(sch, f, mem, root, e.buf, h)
  {
    hide ValidSchema, FieldSlots, TargetSlots;
    var n := sch[f].recordLength;
    forall i | 0 <= i < n && OutsideSlots(slots, h, h + i)
      ensures e.buf[h + i] == Load(mem, root, n)[i]
    {
      assert s.buf[h + i] == Load(s.buf, h, n)[i];
    }
  }

  lemma Finish(sch: Schema, f: nat, mem: seq<byte>, root: nat, nodes: set<Node>, msg: Message,
               slots: seq<Slot>, mslots: seq<Slot>, s: EState, e: EState, idLen: nat, d0: DState, d: DState)
    requires ValidSchema(sch) && f < |sch| && slots == TargetSlots(sch, mem, root, Record(f)) && mslots == TargetSlots(sch, msg.m, msg.delta, Record(f))
    requires Emitted(sch, mem, root, nodes, slots, msg.delta, s, e)
    requires |s.log| == 1 && s.delta == msg.delta && s.log[0] == Block(root, msg.delta, sch[f].recordLength, false, Record(f), true, msg.delta)
    requires idLen + 8 <= msg.delta <= |s.buf| && e.outLen >= msg.delta && msg.m == Store(e.buf, idLen, ToLE(e.outLen - msg.delta, 8))
    requires RootKept(sch, f, mem, root, e.buf, msg.delta)
    requires d0 == DState(msg.m, 0) && Poised(msg, s, e, slots, mslots, msg.delta, d0)
    requires Arrived(sch, msg, s, e, slots, mslots, msg.delta, d0, d)
    requires CopyAt(s.buf, msg.delta, mem, root, sch[f].recordLength)
    ensures SameGraph(sch, f, mem, root, d.buf, msg.base, e.log)
  {
    hide ValidSchema, FieldSlots, BlockOk, BlockConverted, SlotSet, LoadPtr, Store, AddrsOk, Rebuilt, TargetSize, Graph, ValidTarget, Relocated;
    forall k | 0 <= k < |e.log|
      ensures Rebuilt(sch, mem, d.buf, msg.base, e.log, k)
    {
      assert BlockShape(sch, mem, e, k, nodes);
      if k == 0 {
        assert e.log[0] == s.log[0];
        RootOk(sch, f, mem, root, msg, slots, s, e);
        RootConverted(sch, f, mem, root, msg, slots, mslots, s, e, d0, d);
      }
      BlockOkKept(sch, mem, e.buf, msg.m, e.log, e.log, e.delta, e.log[k]);
      LaterOffsets(sch, mem, root, nodes, e);
      OneRebuilt(sch, mem, msg, e.log, d.buf, k);
    }
    assert e.log[0] == s.log[0];
    forall k | 0 < k < |e.log|
      ensures e.log[k].tracked == Tracked(sch, e.log[k].target)
    {
      assert BlockShape(sch, mem, e, k, nodes);
    }
  }

  lemma LaterOffsets(sch: Schema, mem: seq<byte>, root: nat, nodes: set<Node>, e: EState)
    requires LogOk(sch, mem, root, nodes, e)
    ensures forall j :: 0 < j < |e.log| ==> e.log[j].off > e.delta
  {
    forall j | 0 < j < |e.log|
      ensures e.log[j].off > e.delta
    {
      assert BlockShape(sch, mem, e, j, nodes);
    }
  }

  lemma RootOk(sch: Schema, f: nat, mem: seq<byte>, root: nat, msg: Message, slots: seq<Slot>, s: EState, e: EState)
    requires ValidSchema(sch) && f < |sch| && slots == TargetSlots(sch, mem, root, Record(f))
    requires |s.log| == 1 && s.log[0] == Block(root, msg.delta, sch[f].recordLength, false, Record(f), true, msg.delta)
    requires RootKept(sch, f, mem, root, e.buf, msg.delta)
    requires SlotsSet(sch, mem, e.buf, e.log, e.delta, slots, msg.delta)
    ensures BlockOk(sch, mem, e.buf, e.log, e.delta, s.log[0])
  {
    hide ValidSchema, FieldSlots, SlotSet;
  }

  lemma RootConverted(sch: Schema, f: nat, mem: seq<byte>, root: nat, msg: Message, slots: seq<Slot>, mslots: seq<Slot>, s: EState, e: EState, d0: DState, d: DState)
    requires ValidSchema(sch) && f < |sch| && slots == TargetSlots(sch, mem, root, Record(f)) && mslots == TargetSlots(sch, msg.m, msg.delta, Record(f))
    requires |s.log| == 1 && s.log[0] == Block(root, msg.delta, sch[f].recordLength, false, Record(f), true, msg.delta)
    requires d0 == DState(msg.m, 0) && Poised(msg, s, e, slots, mslots, msg.delta, d0)
    requires msg.delta + sch[f].recordLength <= |s.buf| && |s.buf| <= |msg.m|
    requires Arrived(sch, msg, s, e, slots, mslots, msg.delta, d0, d)
    ensures BlockConverted(sch, msg, d.buf, s.log[0])
  {
    hide ValidSchema, FieldSlots, LoadPtr, BlocksConverted, Relocated;
    var h := msg.delta;
    SameOutsideSlots(mslots, slots, h, |d.buf|);
    forall p | h <= p < h + sch[f].recordLength && OutsideSlots(mslots, h, p)
      ensures d.buf[p] == msg.m[p]
    {
      assert OutsideSlots(slots, h, p);
    }
  }

  /** An object correct in the message and converted in the image is rebuilt. */
  lemma OneRebuilt(sch: Schema, mem: seq<byte>, msg: Message, objs: seq<Block>, image: seq<byte>, k: nat)
    requires ValidSchema(sch) && k < |objs| && objs[k].size == TargetSize(sch, mem, objs[k].src, objs[k].target)
    requires BlockOk(sch, mem, msg.m, objs, msg.delta, objs[k]) && BlockConverted(sch, msg, image, objs[k])
    requires forall j :: 0 < j < |objs| ==> objs[j].off > msg.delta
    ensures Rebuilt(sch, mem, image, msg.base, objs, k)
  {
    hide ValidSchema, TargetSlots, ValidTarget, TargetSize, LoadPtr, Leads;
    var b := objs[k];
    var slots := TargetSlots(sch, mem, b.src, b.target);
    var ms := TargetSlots(sch, msg.m, b.off, b.target);
    BlockKept(sch, mem, msg.m, objs, msg.delta, b);
    TargetShape(sch, msg.m, b.off, mem, b.src, b.target);
    TargetSlotsPtrs(sch, msg.m, b.off, b.target);
    forall i | 0 <= i < b.size && OutsideSlots(slots, b.off, b.off + i)
      ensures image[b.off + i] == Load(mem, b.src, b.size)[i]
    {
      assert OutsideSlots(ms, b.off, b.off + i);
    }
    forall i | 0 <= i < |slots|
      ensures PointerRebuilt(sch, mem, image, msg.base, objs, slots[i], b.off)
    {
      assert SlotSet(sch, mem, msg.m, objs, msg.delta, slots[i], b.off);
      assert ms[i].rel == slots[i].rel && LoadPtr(image, b.off + ms[i].rel) == Relocated(msg, ms[i].ptr);
      if Leads(sch, mem, slots[i]) {
        var j :| 0 < j < |objs| && PointsTo(objs[j], slots[i]) && LoadPtr(msg.m, b.off + slots[i].rel) + msg.delta == objs[j].off;
        assert LoadPtr(image, b.off + slots[i].rel) == msg.base + objs[j].off;
      }
    }
  }

  /** Where the round trip ends: a tracked pointer back to the root record. The root's entry
      in the address list holds its offset counted from the header, not from the data, so
      such a pointer comes back exactly one header too far. */
  lemma RootPointerShifted(sch: Schema, f: nat, id: seq<byte>, mem: seq<byte>, root: nat, junk: byte, msg: Message, slot: Slot, loc: nat, rest: seq<Entry>, s: EState)
    requires ValidSchema(sch) && f < |sch| && sch[f].variant && sch[f].recursive && ValidSlot(sch, slot)
    requires s.addrs == AfterStart(sch, f, id, mem, root, true, junk).addrs + rest && root !in AddrSet(rest)
    requires slot.tracked && slot.ptr == root && root != 0
    requires s.delta == msg.delta == HeaderSize(|id|, true) && s.delta <= s.outLen && s.delta < POW64
    requires loc + slot.rel + PointerSize <= |s.buf|
    ensures var r := EmitSlot(sch, mem, slot, loc, s);
      && r.log == s.log
      && Relocated(msg, LoadPtr(r.buf, loc + slot.rel)) == Address(msg, 0) + msg.delta
      && Relocated(msg, LoadPtr(r.buf, loc + slot.rel)) != Address(msg, 0)
  {
    hide ValidSchema, AfterStart, TargetSize, LoadPtr, StorePtr, Find, AddrSet;
    StartShape(sch, f, id, mem, root, true, junk);
    FindFirst(root, s.delta, rest);
    LoadStorePtr(s.buf, loc + slot.rel, s.delta);
  }

  lemma {:induction false} FindFirst(a: nat, o: nat, rest: seq<Entry>)
    requires a !in AddrSet(rest)
    ensures Find([Entry(a, o)] + rest, a) == o
  {
    var all := [Entry(a, o)] + rest;
    if rest == [] {
      assert all[..|all| - 1] == [];
    } else {
      AddrSetLast(rest);
      assert all[..|all| - 1] == [Entry(a, o)] + rest[..|rest| - 1];
      FindFirst(a, o, rest[..|rest| - 1]);
      assert all[|all| - 1] == rest[|rest| - 1];
    }
  }

  // ----- the encoder's messages are laid out as the decoder requires

  /** Each object of the finished message, with its pointers set. */
  lemma MessageBlocks(sch: Schema, f: nat, id: seq<byte>, mem: seq<byte>, root: nat, nodes: set<Node>, junk: byte, base: nat)
    requires Encodable(sch, f, id, mem, root, nodes, junk, base)
    ensures var r := Encode(sch, f, id, mem, root, true, junk);
      && LogOk(sch, mem, root, nodes, r) && |r.buf| == r.outLen && r.delta == HeaderSize(|id|, true)
      && BlocksOk(sch, mem, r.buf, r.log, r.delta, 0)
      && r.log[0] == Block(root, r.delta, sch[f].recordLength, false, Record(f), true, r.delta)
  {
    hide ValidSchema, AfterStart, HeaderSize, Emit, FieldSlots, Emitting, Graph, BlockOk, LogOk, AddrsOk, Store, SlotsSet, CopyAt;
    StartEmitting(sch, f, id, mem, root, nodes, junk, base);
    var h := HeaderSize(|id|, true);
    var s := AfterStart(sch, f, id, mem, root, true, junk);
    var e := Walked(sch, f, id, mem, root, junk);
    var r := Encode(sch, f, id, mem, root, true, junk);
    var slots := TargetSlots(sch, mem, root, Record(f));
    EmitMeaning(sch, mem, root, f, nodes, slots, h, sch[f].recordLength, s);
    RootBytes(sch, f, mem, root, nodes, slots, s, e, h);
    RootOk(sch, f, mem, root, MessageOf(sch, f, id, mem, root, junk, base), slots, s, e);
    assert e.log[0] == s.log[0];
    LogSame(sch, mem, root, nodes, e, r);
    forall k | 0 <= k < |r.log|
      ensures BlockOk(sch, mem, r.buf, r.log, r.delta, r.log[k])
    {
      BlockInside(sch, mem, root, nodes, e, k, h);
      assert BlockOk(sch, mem, e.buf, e.log, e.delta, e.log[k]);
      BlockOkKept(sch, mem, e.buf, r.buf, e.log, r.log, e.delta, e.log[k]);
    }
  }

  lemma LogSame(sch: Schema, mem: seq<byte>, root: nat, nodes: set<Node>, e: EState, r: EState)
    requires LogOk(sch, mem, root, nodes, e) && r == e.(buf := r.buf)
    ensures LogOk(sch, mem, root, nodes, r)
  {
    hide TargetSize, Tracked, AddrSet;
    forall k | 0 <= k < |r.log|
      ensures BlockShape(sch, mem, r, k, nodes)
    {
      assert BlockShape(sch, mem, e, k, nodes);
    }
  }

  lemma BlockInside(sch: Schema, mem: seq<byte>, root: nat, nodes: set<Node>, e: EState, k: nat, h: nat)
    requires LogOk(sch, mem, root, nodes, e) && k < |e.log| && e.delta == h
    ensures h <= e.log[k].off && e.log[k].off + e.log[k].size <= e.outLen
    ensures e.log[k].size == TargetSize(sch, mem, e.log[k].src, e.log[k].target)
  {
    assert BlockShape(sch, mem, e, k, nodes);
  }

  lemma EncodedLayout(sch: Schema, f: nat, id: seq<byte>, mem: seq<byte>, root: nat, nodes: set<Node>, junk: byte, base: nat)
    requires Encodable(sch, f, id, mem, root, nodes, junk, base)
    ensures var r := Encode(sch, f, id, mem, root, true, junk);
      && Layout(sch, MessageOf(sch, f, id, mem, root, junk, base), r.log)
      && |r.log| > 0 && r.log[0].off == r.delta && r.log[0].size == sch[f].recordLength && r.log[0].target == Record(f)
      && forall k :: 0 <= k < |r.log| ==> (r.log[k].src, r.log[k].target) in nodes
  {
    hide ValidSchema, HeaderSize, Graph, BlockOk, Encode, TargetSize;
    MessageBlocks(sch, f, id, mem, root, nodes, junk, base);
    var r := Encode(sch, f, id, mem, root, true, junk);
    var msg := MessageOf(sch, f, id, mem, root, junk, base);
    forall k, l | 0 <= k < l < |r.log|
      ensures r.log[k].off + r.log[k].size <= r.log[l].off && r.log[k].off < r.log[l].off
    {
      assert BlockShape(sch, mem, r, k, nodes);
    }
    forall k | 0 <= k < |r.log|
      ensures ObjectLaid(sch, msg, r.log, k)
      ensures (r.log[k].src, r.log[k].target) in nodes
    {
      assert BlockShape(sch, mem, r, k, nodes);
      assert BlockOk(sch, mem, r.buf, r.log, r.delta, r.log[k]);
      BlockLaid(sch, mem, msg, r.log, k);
    }
  }

  /** Outside its pointers an object's image in the message is the object. */
  lemma BlockKept(sch: Schema, mem: seq<byte>, m: seq<byte>, log: seq<Block>, delta: nat, b: Block)
    requires ValidSchema(sch) && BlockOk(sch, mem, m, log, delta, b) && b.size == TargetSize(sch, mem, b.src, b.target)
    ensures ValidTarget(sch, b.target)
    ensures KeptOutside(m, b.off, mem, b.src, 0, b.size, TargetSlots(sch, mem, b.src, b.target))
  {
    hide ValidSchema, TargetSlots, ValidTarget, TargetSize, SlotsSet;
    var slots := TargetSlots(sch, mem, b.src, b.target);
    forall q | 0 <= q < b.size && OutsideSlots(slots, 0, q)
      ensures m[b.off + q] == At(mem, b.src + q)
    {
      assert OutsideSlots(slots, b.off, b.off + q);
      assert m[b.off + q] == Load(mem, b.src, b.size)[q];
    }
  }

  lemma BlockLaid(sch: Schema, mem: seq<byte>, msg: Message, log: seq<Block>, k: nat)
    requires ValidSchema(sch) && k < |log| && log[k].size == TargetSize(sch, mem, log[k].src, log[k].target)
    requires BlockOk(sch, mem, msg.m, log, msg.delta, log[k])
    requires log[k].target.Data? ==> log[k].off % 8 == 0
    ensures ObjectLaid(sch, msg, log, k)
  {
    hide ValidSchema, TargetSlots, ValidTarget, LoadPtr, Leads, TargetSize;
    var b := log[k];
    var slots := TargetSlots(sch, mem, b.src, b.target);
    var ms := TargetSlots(sch, msg.m, b.off, b.target);
    BlockKept(sch, mem, msg.m, log, msg.delta, b);
    TargetShape(sch, msg.m, b.off, mem, b.src, b.target);
    TargetSlotsPtrs(sch, msg.m, b.off, b.target);
    ImageSlotsIn(sch, mem, msg.m, b);
    DataSize(sch, mem, b);
    forall i | 0 <= i < |ms|
      ensures Placed(msg, log, ms[i])
    {
      assert SlotSet(sch, mem, msg.m, log, msg.delta, slots[i], b.off);
      assert ms[i].rel == slots[i].rel && ms[i].target == slots[i].target && ms[i].ptr == LoadPtr(msg.m, b.off + ms[i].rel);
    }
  }

  lemma DataSize(sch: Schema, mem: seq<byte>, b: Block)
    requires b.size == TargetSize(sch, mem, b.src, b.target)
    ensures b.target.Data? ==> b.size == Size(sch, b.target.typ, [])
  {
  }
}
