/** Emission appends to the buffer and otherwise writes only the slots it was given. */
module EncodeFrame {
  import opened Bytes
  import opened Formats
  import opened ObjectGraph
  import opened EncodeSpec

  lemma {:induction false} EmitAppend(sch: Schema, mem: seq<byte>, x: seq<Slot>, y: seq<Slot>, loc: nat, s: EState)
    requires ValidSchema(sch) && s.delta <= s.outLen
    requires ValidSlots(sch, x)
    requires ValidSlots(sch, y)
    ensures Emit(sch, mem, x + y, loc, s) == Emit(sch, mem, y, loc, Emit(sch, mem, x, loc, s))
    decreases |x|
  {
    if x == [] {
      assert x + y == y;
    } else {
      assert (x + y)[1..] == x[1..] + y;
      EmitAppend(sch, mem, x[1..], y, loc, EmitSlot(sch, mem, x[0], loc, s));
    }
  }

  lemma EmitNone(sch: Schema, mem: seq<byte>, loc: nat, s: EState)
    requires ValidSchema(sch) && s.delta <= s.outLen
    ensures Emit(sch, mem, [], loc, s) == s
  {
  }

  lemma EmitOne(sch: Schema, mem: seq<byte>, x: Slot, loc: nat, s: EState)
    requires ValidSchema(sch) && s.delta <= s.outLen && ValidSlot(sch, x)
    ensures Emit(sch, mem, [x], loc, s) == EmitSlot(sch, mem, x, loc, s)
  {
    assert [x][1..] == [];
  }

  /** What placing an object does to buffer, length and log. */
  lemma PlaceShape(sch: Schema, mem: seq<byte>, slot: Slot, s: EState)
    ensures var r := Place(sch, mem, slot, s); var b := r.log[|s.log|];
      && |s.buf| <= |r.buf| && r.buf[..|s.buf|] == s.buf
      && b.src == slot.ptr && b.tracked == slot.tracked && b.target == slot.target
      && b.size == TargetSize(sch, mem, slot.ptr, slot.target)
      && b.off == s.outLen + PadTo(Alignment(slot.target), s.outLen)
      && r.outLen == b.off + b.size
      && b.copied == !InPlace(sch, slot.target, s.copyAll)
      && (b.copied ==> |s.buf| <= b.tmp && b.tmp + b.size <= |r.buf| && r.buf[b.tmp..b.tmp + b.size] == Load(mem, slot.ptr, b.size))
  {
    var n := TargetSize(sch, mem, slot.ptr, slot.target);
    var align := Alignment(slot.target);
    if !InPlace(sch, slot.target, s.copyAll) {
      var data := Load(mem, slot.ptr, n);
      var (s1, off, at) := AllocateTmpSpace(s, n, align);
      assert |s.buf| <= at && at + n <= |s1.buf|;
      assert s1.buf[..|s.buf|] == s.buf;
    }
  }

  predicate OutsideSlots(slots: seq<Slot>, loc: nat, p: nat) {
    forall i :: 0 <= i < |slots| ==> p < loc + slots[i].rel || loc + slots[i].rel + PointerSize <= p
  }

  ghost predicate SameBut(b: seq<byte>, r: seq<byte>, slots: seq<Slot>, loc: nat) {
    && |b| <= |r|
    && forall p :: 0 <= p < |b| && OutsideSlots(slots, loc, p) ==> r[p] == b[p]
  }

  lemma {:induction false} EmitFrame(sch: Schema, mem: seq<byte>, slots: seq<Slot>, loc: nat, s: EState)
    requires ValidSchema(sch) && s.delta <= s.outLen
    requires ValidSlots(sch, slots)
    ensures SameBut(s.buf, Emit(sch, mem, slots, loc, s).buf, slots, loc)
    ensures s.outLen <= Emit(sch, mem, slots, loc, s).outLen
    decreases Unseen(s.addrs), MaxRank(sch, slots), |slots| + 1
  {
    if slots != [] {
      var s1 := EmitSlot(sch, mem, slots[0], loc, s);
      EmitSlotFrame(sch, mem, slots[0], loc, s);
      UnseenMonotone(s.addrs, s1.addrs);
      assert forall i :: 1 <= i < |slots| ==> slots[i] == slots[1..][i - 1];
      EmitFrame(sch, mem, slots[1..], loc, s1);
      forall p | 0 <= p < |s.buf| && OutsideSlots(slots, loc, p)
        ensures OutsideSlots([slots[0]], loc, p) && OutsideSlots(slots[1..], loc, p)
      {
      }
    }
  }

  lemma {:induction false} EmitSlotFrame(sch: Schema, mem: seq<byte>, slot: Slot, loc: nat, s: EState)
    requires ValidSchema(sch) && s.delta <= s.outLen && ValidSlot(sch, slot)
    ensures SameBut(s.buf, EmitSlot(sch, mem, slot, loc, s).buf, [slot], loc)
    ensures s.outLen <= EmitSlot(sch, mem, slot, loc, s).outLen
    decreases Unseen(s.addrs), if Descends(slot) then TargetRank(sch, slot.target) + 1 else 0, 0
  {
    if Decide(sch, mem, slot, s.addrs).New? {
      PlaceShape(sch, mem, slot, s);
      var s1 := Follow(sch, mem, slot, loc, s);
      FollowFrame(sch, mem, slot, loc, s);
      if !TargetFlat(sch, slot.target) {
        Descent(sch, mem, slot, loc, s);
        var sub := TargetSlots(sch, mem, slot.ptr, slot.target);
        EmitFrame(sch, mem, sub, s1.log[|s.log|].tmp, s1);
        forall p | 0 <= p < |s.buf|
          ensures OutsideSlots(sub, s1.log[|s.log|].tmp, p)
        {
        }
      }
    } else {
      forall p | 0 <= p < |s.buf| && OutsideSlots([slot], loc, p)
        ensures p < loc + slot.rel || loc + slot.rel + PointerSize <= p
      {
        assert [slot][0] == slot;
      }
    }
  }

  lemma FollowFrame(sch: Schema, mem: seq<byte>, slot: Slot, loc: nat, s: EState)
    requires s.delta <= s.outLen
    ensures SameBut(s.buf, Follow(sch, mem, slot, loc, s).buf, [slot], loc)
    ensures s.outLen <= Follow(sch, mem, slot, loc, s).outLen
  {
    PlaceShape(sch, mem, slot, s);
    var p1 := Place(sch, mem, slot, s);
    forall p | 0 <= p < |s.buf| && OutsideSlots([slot], loc, p)
      ensures Follow(sch, mem, slot, loc, s).buf[p] == s.buf[p]
    {
      assert [slot][0] == slot;
      assert p1.buf[p] == p1.buf[..|s.buf|][p];
    }
  }
}
