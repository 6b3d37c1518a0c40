/** What the gather vector does not copy: user data without pointers is pointed at where it
    lies, everything else is copied; and the message of a record without pointers. */
module LeftInPlace {
  import opened Bytes
  import opened Formats
  import opened ObjectGraph
  import opened EncodeSpec
  import opened EncodeFrame
  import opened EncodeReady
  import opened EncodeMeaning
  import opened RoundTrip
  import opened Gather
  import P = Places

  // ----- which objects are copied

  /** Every object but the record was copied exactly when it is not flat. */
  ghost predicate CopiedRight(sch: Schema, s: EState) {
    forall k :: 0 < k < |s.log| ==> CopiedAt(sch, s, k)
  }

  predicate CopiedAt(sch: Schema, s: EState, k: nat)
    requires k < |s.log|
  {
    s.log[k].copied == !InPlace(sch, s.log[k].target, s.copyAll)
  }

  lemma PlaceCopies(sch: Schema, mem: seq<byte>, slot: Slot, s: EState)
    requires |s.log| > 0 && CopiedRight(sch, s)
    ensures CopiedRight(sch, Place(sch, mem, slot, s))
  {
    hide TargetSize, TargetFlat, AllocateTmpSpace, Load;
    var r := Place(sch, mem, slot, s);
    var n := |s.log|;
    forall k | 0 < k < |r.log|
      ensures CopiedAt(sch, r, k)
    {
      if k < n { assert r.log[k] == r.log[..n][k] && CopiedAt(sch, s, k); }
    }
  }

  lemma FollowCopies(sch: Schema, mem: seq<byte>, slot: Slot, loc: nat, s: EState)
    requires |s.log| > 0 && CopiedRight(sch, s) && s.delta <= s.outLen
    ensures CopiedRight(sch, Follow(sch, mem, slot, loc, s))
  {
    hide Place, StorePtr, InPlace;
    PlaceCopies(sch, mem, slot, s);
    var p, r := Place(sch, mem, slot, s), Follow(sch, mem, slot, loc, s);
    forall k | 0 < k < |r.log|
      ensures CopiedAt(sch, r, k)
    {
      assert CopiedAt(sch, p, k);
    }
  }

  lemma SameCopies(sch: Schema, s: EState, buf: seq<byte>)
    requires CopiedRight(sch, s)
    ensures CopiedRight(sch, s.(buf := buf))
  {
    hide InPlace;
    forall k | 0 < k < |s.log|
      ensures CopiedAt(sch, s.(buf := buf), k)
    {
      assert CopiedAt(sch, s, k);
    }
  }

  lemma {:induction false} EmitCopies(sch: Schema, mem: seq<byte>, slots: seq<Slot>, loc: nat, s: EState)
    requires ValidSchema(sch) && ValidSlots(sch, slots) && s.delta <= s.outLen && |s.log| > 0 && CopiedRight(sch, s)
    ensures CopiedRight(sch, Emit(sch, mem, slots, loc, s))
    decreases Unseen(s.addrs), MaxRank(sch, slots), |slots| + 1
  {
    hide ValidSchema, CopiedRight, TargetRank, Unseen, EmitSlot, ValidSlot;
    if slots != [] {
      EmitSlotCopies(sch, mem, slots[0], loc, s);
      var s1 := EmitSlot(sch, mem, slots[0], loc, s);
      UnseenMonotone(s.addrs, s1.addrs);
      assert forall i :: 1 <= i < |slots| ==> slots[i] == slots[1..][i - 1];
      EmitCopies(sch, mem, slots[1..], loc, s1);
    }
  }

  lemma {:induction false} EmitSlotCopies(sch: Schema, mem: seq<byte>, slot: Slot, loc: nat, s: EState)
    requires ValidSchema(sch) && ValidSlot(sch, slot) && s.delta <= s.outLen && |s.log| > 0 && CopiedRight(sch, s)
    ensures CopiedRight(sch, EmitSlot(sch, mem, slot, loc, s))
    decreases Unseen(s.addrs), if Descends(slot) then TargetRank(sch, slot.target) + 1 else 0, 0
  {
    hide ValidSchema, CopiedRight, MaxRank, TargetRank, Unseen, ValidSlot, Follow, TargetSlots, TargetFlat, Emit, Decide, StorePtr, ValidSlots, Tracked;
    SameCopies(sch, s, StorePtr(s.buf, loc + slot.rel, 0));
    match Decide(sch, mem, slot, s.addrs)
    case Leave =>
    case Clear =>
    case Reuse(o) => SameCopies(sch, s, StorePtr(s.buf, loc + slot.rel, o));
    case New =>
      var s1 := Follow(sch, mem, slot, loc, s);
      FollowCopies(sch, mem, slot, loc, s);
      if !TargetFlat(sch, slot.target) {
        FlatOrData(sch, slot);
        Descent(sch, mem, slot, loc, s);
        EmitCopies(sch, mem, TargetSlots(sch, mem, slot.ptr, slot.target), s1.log[|s.log|].tmp, s1);
      }
  }

  lemma EncodeCopies(sch: Schema, f: nat, id: seq<byte>, mem: seq<byte>, root: nat, copyAll: bool, junk: byte)
    requires ValidSchema(sch) && f < |sch| && sch[f].variant
    ensures CopiedRight(sch, Encode(sch, f, id, mem, root, copyAll, junk)) && Encode(sch, f, id, mem, root, copyAll, junk).copyAll == copyAll
  {
    hide ValidSchema, AfterStart, Emit, HeaderSize, Header, TargetSlots, ValidSlots, Store, ToLE, PadTo, Load, InPlace, CopyAt;
    StartShape(sch, f, id, mem, root, copyAll, junk);
    StartVector(sch, f, id, mem, root, copyAll, junk);
    var s := AfterStart(sch, f, id, mem, root, copyAll, junk);
    var slots := TargetSlots(sch, mem, root, Record(f));
    TargetSlotsIn(sch, mem, root, Record(f));
    EmitCopies(sch, mem, slots, s.log[0].tmp, s);
    var e := Emit(sch, mem, slots, s.log[0].tmp, s);
    SameCopies(sch, e, Store(e.buf, |id|, ToLE(e.outLen - e.delta, 8)));
  }

  // ----- what that means

  /** What no pointer or string is in: plain values, and arrays of them. */
  predicate PlainData(t: Type) {
    t.Simple? || (t.Array? && t.next.Simple?) || (t.Array? && t.next.Array? && t.next.next.Simple?)
  }

  /** Strings and plain data are in the vector where they lie in user memory. */
  lemma PlainLeft(sch: Schema, f: nat, id: seq<byte>, mem: seq<byte>, root: nat, junk: byte, k: nat)
    requires ValidSchema(sch) && f < |sch| && sch[f].variant
    requires var v := Encode(sch, f, id, mem, root, false, junk);
      0 < k < |v.log| && v.log[k].size > 0 && (v.log[k].target.CString? || (v.log[k].target.Data? && PlainData(v.log[k].target.typ)))
    ensures var v := Encode(sch, f, id, mem, root, false, junk); User(v.log[k].src, v.log[k].size) in v.iov
  {
    hide ValidSchema, Encode, Total, SameBytes, InBuffer, SameBlock, Packed;
    var v := Encode(sch, f, id, mem, root, false, junk);
    EncodeCopies(sch, f, id, mem, root, false, junk);
    RunTwins(sch, f, id, mem, root, junk);
    assert CopiedAt(sch, v, k);
    if v.log[k].target.Data? { PlainIsFlat(sch, v.log[k].target.typ); }
    assert Served(v.iov, v.log[k]);
    var i: nat :| Serves(v.iov, i, v.log[k]);
    assert v.iov[i] == User(v.log[k].src, v.log[k].size);
  }

  lemma {:induction false} PlainIsFlat(sch: Schema, t: Type)
    requires PlainData(t)
    ensures IsFlat(sch, t)
  {
    if t.Array? && t.next.Array? { assert IsFlat(sch, t.next); }
  }

  /** An object that holds a string or pointer is copied: its pointers are to be set. */
  lemma HoldersCopied(sch: Schema, f: nat, id: seq<byte>, mem: seq<byte>, root: nat, junk: byte, k: nat, off: int, to: Target)
    requires ValidSchema(sch) && f < |sch| && sch[f].variant
    requires var v := Encode(sch, f, id, mem, root, false, junk);
      0 < k < |v.log| && ValidTarget(sch, v.log[k].target) && P.ObjectAt(sch, mem, v.log[k].target, v.log[k].src, off, to)
    ensures Encode(sch, f, id, mem, root, false, junk).log[k].copied
  {
    hide ValidSchema, Encode, P.ObjectAt, ValidTarget, TargetFlat, TargetSlots;
    var v := Encode(sch, f, id, mem, root, false, junk);
    EncodeCopies(sch, f, id, mem, root, false, junk);
    assert CopiedAt(sch, v, k);
    P.ObjectPlaces(sch, mem, v.log[k].target, v.log[k].src, off, to);
    if TargetFlat(sch, v.log[k].target) { FlatTargetNoSlots(sch, mem, v.log[k].src, v.log[k].target); }
  }

  // ----- a record without pointers

  /** Its message is the ID, zeroes up to a multiple of 8, and the record; the vector has two
      entries, the second of them the record where it lies. */
  lemma FlatRecord(sch: Schema, f: nat, id: seq<byte>, mem: seq<byte>, root: nat, junk: byte)
    requires ValidSchema(sch) && f < |sch| && !sch[f].variant
    ensures var h := (|id| + 7) / 8 * 8; var n := sch[f].recordLength;
      var c, v := Encode(sch, f, id, mem, root, true, junk), Encode(sch, f, id, mem, root, false, junk);
      && c.buf == id + Fill(h - |id|, 0) + Load(mem, root, n) && c.outLen == v.outLen == h + n
      && v.iov == [Tmp(0, h)] + (if n == 0 then [] else [User(root, n)]) && v.buf == id + Fill(h - |id|, 0)
      && Gathered(mem, v.buf, v.iov) == c.buf
  {
    hide ValidSchema, HeaderSize, Load;
    var h, n := HeaderSize(|id|, false), sch[f].recordLength;
    FlatHeader(id);
    FlatStates(sch, f, id, mem, root, junk);
    var v := Encode(sch, f, id, mem, root, false, junk);
    GatherTwo(mem, v.buf, h, root, n);
  }

  lemma FlatHeader(id: seq<byte>)
    ensures var h := (|id| + 7) / 8 * 8; HeaderSize(|id|, false) == h && Header(id, false) == id + Fill(h - |id|, 0)
  {
  }

  lemma FlatStates(sch: Schema, f: nat, id: seq<byte>, mem: seq<byte>, root: nat, junk: byte)
    requires ValidSchema(sch) && f < |sch| && !sch[f].variant
    ensures var h := HeaderSize(|id|, false); var n := sch[f].recordLength;
      var c, v := Encode(sch, f, id, mem, root, true, junk), Encode(sch, f, id, mem, root, false, junk);
      && c.buf == Header(id, false) + Load(mem, root, n) && c.outLen == v.outLen == h + n
      && v.iov == [Tmp(0, h)] + (if n == 0 then [] else [User(root, n)]) && v.buf == Header(id, false)
  {
    hide ValidSchema, HeaderSize, Header, Load;
  }

  lemma GatherTwo(mem: seq<byte>, buf: seq<byte>, h: nat, root: nat, n: nat)
    requires |buf| == h
    ensures Gathered(mem, buf, [Tmp(0, h)] + (if n == 0 then [] else [User(root, n)])) == buf + Load(mem, root, n)
  {
    hide Load;
    var one := [Tmp(0, h)];
    assert one[..0] == [];
    assert Gathered(mem, buf, []) == [];
    assert Gathered(mem, buf, one) == Load(buf, 0, h);
    WholeLoad(buf);
    if n > 0 {
      var two := [Tmp(0, h), User(root, n)];
      assert two[..1] == one;
      assert one + [User(root, n)] == two;
    } else {
      assert one + [] == one;
    }
  }

  lemma WholeLoad(buf: seq<byte>)
    ensures Load(buf, 0, |buf|) == buf
  {
  }
}
