/** What the encoder does to its state, said over the object graph: emit the objects
    reachable from a list of pointer slots, depth first, patching each slot with the
    offset of what it points to. The code in Encoder refines this. */
module EncodeSpec {
  import opened Bytes
  import opened Formats
  import opened ObjectGraph

  /** An entry of the gather vector: a piece of the temporary buffer, alignment zeroes, or
      user memory left where it is. */
  datatype Iov = Tmp(off: nat, len: nat) | Pad(len: nat) | User(addr: nat, len: nat)

  datatype Entry = Entry(addr: nat, offset: nat)

  /** History: an object placed in the message. `off` counts from the start of the
      message; `tmp` is its place in the temporary buffer when it was copied there. */
  datatype Block = Block(src: nat, off: nat, size: nat, tracked: bool, target: Target, copied: bool, tmp: nat)

  /** encode_state with the temporary buffer. `delta` is saved_offset_difference and `junk`
      stands for whatever freshly allocated memory holds. */
  datatype EState = EState(
    copyAll: bool, outLen: nat, delta: nat, iov: seq<Iov>, addrs: seq<Entry>,
    buf: seq<byte>, log: seq<Block>, junk: byte)

  predicate IsAlignment(align: nat) {
    align == 1 || align == 8
  }

  /** Distance from n to the next multiple of the alignment. */
  function PadTo(align: nat, n: nat): (p: nat)
    requires IsAlignment(align)
    ensures p < align && (n + p) % align == 0
  {
    if align == 1 then 0 else (8 - n % 8) % 8
  }

  function Fill(n: nat, b: byte): (s: seq<byte>)
    ensures |s| == n
  {
    seq(n, _ => b)
  }

  function AllocateTmpSpace(s: EState, length: nat, align: nat): (r: (EState, nat, nat))
    requires IsAlignment(align)
    ensures r.0.log == s.log && r.0.addrs == s.addrs && r.0.delta == s.delta && r.0.copyAll == s.copyAll && r.0.junk == s.junk
  {
    var pad := PadTo(align, s.outLen);
    var at := |s.buf|;
    var out := s.outLen + pad + length;
    if pad == 0 then
      (s.(buf := s.buf + Fill(length, s.junk), outLen := out), s.outLen, at)
    else if |s.iov| > 0 && s.iov[|s.iov| - 1].Tmp? then
      var last := s.iov[|s.iov| - 1];
      (s.(buf := s.buf + Fill(pad, 0) + Fill(length, s.junk),
          iov := s.iov[|s.iov| - 1 := Tmp(last.off, last.len + pad)], outLen := out),
       s.outLen + pad, at + pad)
    else
      (s.(buf := s.buf + Fill(length + pad, s.junk), iov := s.iov + [Pad(pad)], outLen := out),
       s.outLen + pad, at)
  }

  function CopyToTmp(s: EState, data: seq<byte>, align: nat): (r: (EState, nat, nat))
    requires IsAlignment(align)
    ensures r.0.log == s.log && r.0.addrs == s.addrs && r.0.delta == s.delta && r.0.copyAll == s.copyAll && r.0.junk == s.junk
  {
    var (s1, off, at) := AllocateTmpSpace(s, |data|, align);
    if data == [] then (s1, off, at)
    else (s1.(buf := Store(s1.buf, at, data), iov := s1.iov + [Tmp(at, |data|)]), off, at)
  }

  function AddIovec(s: EState, addr: nat, length: nat, align: nat): (r: (EState, nat))
    requires IsAlignment(align)
    ensures r.0.log == s.log && r.0.addrs == s.addrs && r.0.delta == s.delta && r.0.copyAll == s.copyAll && r.0.junk == s.junk
  {
    var pad := PadTo(align, s.outLen);
    var iov1 := if pad == 0 then s.iov else s.iov + [Pad(pad)];
    var iov2 := if length == 0 then iov1 else iov1 + [User(addr, length)];
    (s.(iov := iov2, outLen := s.outLen + pad + length), s.outLen + pad)
  }

  /** The offset recorded for an address, the last one if there are several, or -1. */
  function Find(addrs: seq<Entry>, a: nat): (o: int)
    ensures o >= -1
    ensures o == -1 <==> a !in AddrSet(addrs)
  {
    if addrs == [] then -1
    else
      AddrSetLast(addrs);
      var last := addrs[|addrs| - 1];
      if last.addr == a then last.offset else Find(addrs[..|addrs| - 1], a)
  }

  function AddrSet(addrs: seq<Entry>): set<nat> {
    set e | e in addrs :: e.addr
  }

  lemma AddrSetLast(addrs: seq<Entry>)
    requires addrs != []
    ensures AddrSet(addrs) == AddrSet(addrs[..|addrs| - 1]) + {addrs[|addrs| - 1].addr}
  {
    var n := |addrs| - 1;
    assert addrs == addrs[..n] + [addrs[n]];
    assert forall e :: e in addrs <==> e in addrs[..n] || e == addrs[n];
    forall a
      ensures a in AddrSet(addrs) <==> a in AddrSet(addrs[..n]) + {addrs[n].addr}
    {
      if a == addrs[n].addr {
        assert addrs[n] in addrs;
      }
    }
  }

  predicate IsAddress(a: nat) {
    a < POW64
  }

  ghost function Addresses(): (s: set<nat>) {
    set a: nat | a < POW64 && IsAddress(a)
  }

  /** Addresses the encoder could still record: the measure that bounds cyclic graphs. */
  ghost function Unseen(addrs: seq<Entry>): nat {
    |Addresses() - AddrSet(addrs)|
  }

  lemma SubsetSize(a: set<nat>, b: set<nat>)
    requires a <= b
    ensures |a| <= |b|
    ensures a != b ==> |a| < |b|
  {
    assert b == a + (b - a);
    assert |b| == |a| + |b - a|;
    if a != b {
      assert b - a != {};
    }
  }

  lemma UnseenMonotone(a: seq<Entry>, b: seq<Entry>)
    requires a <= b
    ensures Unseen(b) <= Unseen(a)
  {
    assert forall e :: e in a ==> e in b;
    assert AddrSet(a) <= AddrSet(b);
    SubsetSize(Addresses() - AddrSet(b), Addresses() - AddrSet(a));
  }

  lemma UnseenDrops(a: seq<Entry>, e: Entry)
    requires e.addr < POW64 && e.addr !in AddrSet(a)
    ensures Unseen(a + [e]) < Unseen(a)
  {
    AddrSetLast(a + [e]);
    assert (a + [e])[..|a|] == a;
    var x, y := Addresses() - AddrSet(a + [e]), Addresses() - AddrSet(a);
    assert e.addr in y && e.addr !in x;
    SubsetSize(x, y);
  }

  predicate InPlace(sch: Schema, t: Target, copyAll: bool) {
    !copyAll && TargetFlat(sch, t)
  }

  function Alignment(t: Target): (a: nat)
    ensures IsAlignment(a)
  {
    if t.CString? then 1 else 8
  }

  /** Put the object a slot leads to into the message. */
  function Place(sch: Schema, mem: seq<byte>, slot: Slot, s: EState): (r: EState)
    ensures r.delta == s.delta && r.copyAll == s.copyAll && r.addrs == s.addrs && r.junk == s.junk
    ensures |r.log| == |s.log| + 1 && r.log[..|s.log|] == s.log
    ensures r.log[|s.log|].off >= s.outLen
    ensures r.outLen >= s.outLen
  {
    var n := TargetSize(sch, mem, slot.ptr, slot.target);
    var align := Alignment(slot.target);
    if InPlace(sch, slot.target, s.copyAll) then
      var (s1, off) := AddIovec(s, slot.ptr, n, align);
      s1.(log := s.log + [Block(slot.ptr, off, n, slot.tracked, slot.target, false, 0)])
    else
      var (s1, off, at) := CopyToTmp(s, Load(mem, slot.ptr, n), align);
      s1.(log := s.log + [Block(slot.ptr, off, n, slot.tracked, slot.target, true, at)])
  }

  /** State after placing a slot's object and pointing the slot at it. */
  function Follow(sch: Schema, mem: seq<byte>, slot: Slot, loc: nat, s: EState): (r: EState)
    requires s.delta <= s.outLen
    ensures r.delta == s.delta && r.copyAll == s.copyAll && r.delta <= r.outLen && r.junk == s.junk
    ensures |r.log| == |s.log| + 1 && r.log[..|s.log|] == s.log
    ensures r.log[|s.log|].off >= s.delta
    ensures r.addrs == if slot.tracked then s.addrs + [Entry(slot.ptr, r.log[|s.log|].off - s.delta)] else s.addrs
  {
    var p := Place(sch, mem, slot, s);
    var off := p.log[|s.log|].off - s.delta;
    p.(buf := StorePtr(p.buf, loc + slot.rel, off),
       addrs := if slot.tracked then p.addrs + [Entry(slot.ptr, off)] else p.addrs)
  }

  datatype Action = Leave | Clear | Reuse(offset: nat) | New

  /** What becomes of a pointer: NULL stays, a tracked address seen before is reused, an
      empty array becomes NULL, anything else is emitted. */
  function Decide(sch: Schema, mem: seq<byte>, slot: Slot, addrs: seq<Entry>): Action {
    if slot.ptr == 0 then Leave
    else if slot.tracked && Find(addrs, slot.ptr) != -1 then Reuse(Find(addrs, slot.ptr))
    else if TargetSize(sch, mem, slot.ptr, slot.target) == 0 then Clear
    else New
  }

  /** A followed pointer either uses up an address or descends in the type graph. */
  lemma Descent(sch: Schema, mem: seq<byte>, slot: Slot, loc: nat, s: EState)
    requires ValidSchema(sch) && ValidSlot(sch, slot) && s.delta <= s.outLen
    requires Decide(sch, mem, slot, s.addrs).New? && slot.target.Data?
    ensures slot.tracked ==> Unseen(Follow(sch, mem, slot, loc, s).addrs) < Unseen(s.addrs)
    ensures !slot.tracked ==>
      && Follow(sch, mem, slot, loc, s).addrs == s.addrs
      && MaxRank(sch, TargetSlots(sch, mem, slot.ptr, slot.target)) <= TargetRank(sch, slot.target)
  {
    hide ValidSchema, Unseen, MaxRank, TargetRank, TargetSlots, SlotsIn, Follow, AddrSet, ValidTarget;
    if slot.tracked {
      UnseenDrops(s.addrs, Entry(slot.ptr, Follow(sch, mem, slot, loc, s).log[|s.log|].off - s.delta));
    } else {
      TargetSlotsRank(sch, mem, slot.ptr, slot.target);
    }
  }

  function EmitSlot(sch: Schema, mem: seq<byte>, slot: Slot, loc: nat, s: EState): (r: EState)
    requires ValidSchema(sch) && ValidSlot(sch, slot) && s.delta <= s.outLen
    ensures r.delta == s.delta && r.copyAll == s.copyAll && r.delta <= r.outLen && r.junk == s.junk
    ensures s.addrs <= r.addrs && s.log <= r.log
    decreases Unseen(s.addrs), if Descends(slot) then TargetRank(sch, slot.target) + 1 else 0, 0
  {
    match Decide(sch, mem, slot, s.addrs)
    case Leave => s
    case Reuse(o) => s.(buf := StorePtr(s.buf, loc + slot.rel, o))
    case Clear => s.(buf := StorePtr(s.buf, loc + slot.rel, 0))
    case New =>
      var s1 := Follow(sch, mem, slot, loc, s);
      if TargetFlat(sch, slot.target) then s1
      else
        Descent(sch, mem, slot, loc, s);
        Emit(sch, mem, TargetSlots(sch, mem, slot.ptr, slot.target), s1.log[|s.log|].tmp, s1)
  }

  /** Emit everything reachable from the slots of the object at loc in the buffer. The
      recursion is bounded by the addresses not yet recorded and, between those, by the
      type graph; no assumption is made on the memory, which may be cyclic. */
  function Emit(sch: Schema, mem: seq<byte>, slots: seq<Slot>, loc: nat, s: EState): (r: EState)
    requires ValidSchema(sch) && s.delta <= s.outLen
    requires ValidSlots(sch, slots)
    ensures r.delta == s.delta && r.copyAll == s.copyAll && r.delta <= r.outLen && r.junk == s.junk
    ensures s.addrs <= r.addrs && s.log <= r.log
    decreases Unseen(s.addrs), MaxRank(sch, slots), |slots| + 1
  {
    if slots == [] then s
    else
      var s1 := EmitSlot(sch, mem, slots[0], loc, s);
      UnseenMonotone(s.addrs, s1.addrs);
      assert forall i :: 1 <= i < |slots| ==> slots[i] == slots[1..][i - 1];
      Emit(sch, mem, slots[1..], loc, s1)
  }

  /** The message header: format ID, room for the record length when the record has
      pointers, zeroes up to a multiple of 8. */
  function HeaderSize(idLen: nat, variant: bool): (h: nat)
    ensures h % 8 == 0 && h >= idLen + (if variant then 8 else 0)
  {
    var n := idLen + if variant then 8 else 0;
    n + PadTo(8, n)
  }

  function Header(id: seq<byte>, variant: bool): (h: seq<byte>)
    ensures |h| == HeaderSize(|id|, variant)
  {
    id + Fill(HeaderSize(|id|, variant) - |id|, 0)
  }

  function AfterHeader(id: seq<byte>, variant: bool, copyAll: bool, junk: byte): EState {
    var h := HeaderSize(|id|, variant);
    EState(copyAll, h, h, [Tmp(0, h)], [], Header(id, variant), [], junk)
  }

  /** Header and base record. */
  function AfterBase(sch: Schema, f: nat, id: seq<byte>, mem: seq<byte>, root: nat, copyAll: bool, junk: byte): EState
    requires f < |sch|
  {
    var s0 := AfterHeader(id, sch[f].variant, copyAll, junk);
    var n := sch[f].recordLength;
    if sch[f].variant || copyAll then
      var (s1, off, at) := CopyToTmp(s0, Load(mem, root, n), 1);
      s1.(log := [Block(root, off, n, false, Record(f), true, at)])
    else
      var (s1, off) := AddIovec(s0, root, n, 1);
      s1.(log := [Block(root, off, n, false, Record(f), false, 0)])
  }

  /** Ready for the dynamic part: the root is in the address list, the length is a multiple of 8. */
  function AfterStart(sch: Schema, f: nat, id: seq<byte>, mem: seq<byte>, root: nat, copyAll: bool, junk: byte): EState
    requires f < |sch|
  {
    var s1 := AfterBase(sch, f, id, mem, root, copyAll, junk);
    var s2 := if sch[f].recursive then s1.(addrs := [Entry(root, s1.log[0].off)]) else s1;
    CopyToTmp(s2, [], 8).0
  }

  function Encode(sch: Schema, f: nat, id: seq<byte>, mem: seq<byte>, root: nat, copyAll: bool, junk: byte): EState
    requires ValidSchema(sch) && f < |sch|
  {
    if !sch[f].variant then AfterBase(sch, f, id, mem, root, copyAll, junk)
    else
      FieldSlotsIn(sch, mem, f, 0, root, 0);
      var s := AfterStart(sch, f, id, mem, root, copyAll, junk);
      var r := Emit(sch, mem, TargetSlots(sch, mem, root, Record(f)), s.log[0].tmp, s);
      r.(buf := Store(r.buf, |id|, ToLE(r.outLen - r.delta, 8)))
  }
}
