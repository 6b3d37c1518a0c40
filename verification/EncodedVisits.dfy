/** What a size-changing conversion meets in a message the encoder made: the order the
    conversion relies on is the order in which the encoder placed the objects. */
module EncodedVisits {
  import opened Bytes
  import opened Formats
  import opened ObjectGraph
  import opened EncodeSpec
  import opened EncodeFrame
  import opened EncodeReady
  import opened EncodeMeaning
  import opened DecodeSpec
  import opened Lockstep
  import opened RoundTrip
  import R = Resize
  import Revisit

  /** What a pointer of the message leads to, as the conversion sees it: `dest` is the size of
      a single value in the destination. */
  function Meant(sch: Schema, t: Target, len: nat, dest: Type -> nat, inside: seq<R.Visit>): R.Target {
    if !t.Data? then R.Text(len)
    else if t.typ.Array? then
      var e := ElemType(t.typ);
      R.Many(ElemCount(t.typ, []), ElemSize(sch, e), dest(e) - ElemSize(sch, e), inside)
    else R.One(ElemSize(sch, t.typ), dest(t.typ), inside)
  }

  lemma {:induction false} CurGrows(v: R.Visit, cur: nat)
    ensures R.CurAfter(v, cur) >= cur
    decreases v, 1
  {
    if v.offset > cur && !v.target.Text? { CurAllGrows(v.target.inside, v.offset); }
  }

  lemma {:induction false} CurAllGrows(vs: seq<R.Visit>, cur: nat)
    ensures R.CurAll(vs, cur) >= cur
    decreases vs, 0
  {
    if vs != [] {
      CurGrows(vs[0], cur);
      CurAllGrows(vs[1..], R.CurAfter(vs[0], cur));
    }
  }

  function MeetSlot(sch: Schema, msg: Message, dest: Type -> nat, slot: Slot, cur: nat): R.Visit
    requires ValidSchema(sch) && ValidSlot(sch, slot)
    decreases Remaining(cur), 0
  {
    if slot.ptr == 0 then R.Visit(0, R.Text(1))
    else
      var at := msg.delta + slot.ptr;
      var inside := if slot.target.CString? || slot.ptr <= cur then []
                    else Meet(sch, msg, dest, TargetSlots(sch, msg.m, at, slot.target), slot.ptr);
      R.Visit(slot.ptr, Meant(sch, slot.target, TargetSize(sch, msg.m, at, slot.target), dest, inside))
  }

  /** The pointers met from these on, with cur_offset where it is, in any message; the target's
      pointer fields are in the source's order. */
  function Meet(sch: Schema, msg: Message, dest: Type -> nat, slots: seq<Slot>, cur: nat): seq<R.Visit>
    requires ValidSchema(sch) && ValidSlots(sch, slots)
    decreases Remaining(cur), |slots| + 1
  {
    if slots == [] then []
    else
      var v := MeetSlot(sch, msg, dest, slots[0], cur);
      CurGrows(v, cur);
      [v] + Meet(sch, msg, dest, slots[1..], R.CurAfter(v, cur))
  }

  /** No single value of the graph grows. */
  ghost predicate SinglesShrink(sch: Schema, dest: Type -> nat, nodes: set<Node>) {
    forall n :: n in nodes && n.1.Data? && !n.1.typ.Array? ==> dest(n.1.typ) <= ElemSize(sch, n.1.typ)
  }

  lemma MeantSize(sch: Schema, mem: seq<byte>, p: nat, t: Target, len: nat, dest: Type -> nat, inside: seq<R.Visit>)
    requires t.Data?
    ensures R.SrcSize(Meant(sch, t, len, dest, inside)) == TargetSize(sch, mem, p, t)
    ensures TargetSize(sch, mem, p, t) > 0 ==> R.Sized(Meant(sch, t, len, dest, inside))
  {
  }

  // ----- the conversion's mark follows the encoder

  function MarkOf(s: EState): R.Mark
    requires s.delta <= s.outLen
  {
    R.Mark(Cur(s.log, s.delta), s.outLen - s.delta)
  }

  /** These visits take the mark from the encoder's state s to its state r, in order when no
      single value grows, and lead to multiples of 8. */
  ghost predicate Marks(vs: seq<R.Visit>, s: EState, r: EState, shrink: bool) {
    && s.delta <= s.outLen && r.delta <= r.outLen
    && (shrink ==> R.InOrder(vs, MarkOf(s))) && R.AfterAll(vs, MarkOf(s)) == MarkOf(r)
    && Revisit.OffsetsAligned(Revisit.Trace(vs, MarkOf(s).cur))
  }

  lemma {:induction false} AfterCur(v: R.Visit, m: R.Mark)
    ensures R.After(v, m).cur == R.CurAfter(v, m.cur)
    decreases v, 1
  {
    if v.offset > m.cur && !v.target.Text? {
      AfterAllCur(v.target.inside, R.Mark(v.offset, v.offset + R.SrcSize(v.target)));
    }
  }

  lemma {:induction false} AfterAllCur(vs: seq<R.Visit>, m: R.Mark)
    ensures R.AfterAll(vs, m).cur == R.CurAll(vs, m.cur)
    decreases vs, 0
  {
    if vs != [] {
      AfterCur(vs[0], m);
      AfterAllCur(vs[1..], R.After(vs[0], m));
    }
  }

  lemma MarksOne(v: R.Visit, s: EState, r: EState, shrink: bool)
    requires s.delta <= s.outLen && r.delta <= r.outLen
    requires (shrink ==> R.InOrder1(v, MarkOf(s))) && R.After(v, MarkOf(s)) == MarkOf(r)
    requires Revisit.OffsetsAligned(Revisit.Steps(v, MarkOf(s).cur))
    ensures Marks([v], s, r, shrink) && R.CurAfter(v, MarkOf(s).cur) == MarkOf(r).cur
  {
    hide R.After, R.InOrder1, Revisit.Steps, R.CurAfter;
    AfterCur(v, MarkOf(s));
    TraceOne(v, MarkOf(s).cur);
    assert [v][1..] == [];
    assert R.AfterAll([v][1..], R.After(v, MarkOf(s))) == R.After(v, MarkOf(s));
    assert R.InOrder([v][1..], R.After(v, MarkOf(s)));
  }

  lemma TraceOne(v: R.Visit, cur: nat)
    ensures Revisit.Trace([v], cur) == Revisit.Steps(v, cur)
  {
    hide Revisit.Steps, R.CurAfter;
    assert [v][1..] == [];
    assert Revisit.Trace([v][1..], R.CurAfter(v, cur)) == [];
  }

  lemma MarksOneIs(v: R.Visit, s: EState, r: EState, shrink: bool)
    requires Marks([v], s, r, shrink)
    ensures (shrink ==> R.InOrder1(v, MarkOf(s))) && R.After(v, MarkOf(s)) == MarkOf(r) && R.CurAfter(v, MarkOf(s).cur) == MarkOf(r).cur
    ensures Revisit.OffsetsAligned(Revisit.Steps(v, MarkOf(s).cur))
  {
    hide R.After, R.InOrder1, Revisit.Steps, R.CurAfter;
    AfterCur(v, MarkOf(s));
    TraceOne(v, MarkOf(s).cur);
    assert [v][1..] == [];
    assert R.AfterAll([v][1..], R.After(v, MarkOf(s))) == R.After(v, MarkOf(s));
  }

  lemma MarksJoin(v: R.Visit, vs: seq<R.Visit>, s: EState, s1: EState, r: EState, shrink: bool)
    requires Marks([v], s, s1, shrink) && Marks(vs, s1, r, shrink)
    ensures Marks([v] + vs, s, r, shrink)
  {
    hide R.After, R.InOrder1, Revisit.Steps, R.CurAfter, Cur;
    MarksOneIs(v, s, s1, shrink);
    assert ([v] + vs)[1..] == vs;
    var x, y := Revisit.Steps(v, MarkOf(s).cur), Revisit.Trace(vs, MarkOf(s1).cur);
    assert Revisit.Trace([v] + vs, MarkOf(s).cur) == x + y;
  }

  lemma NullMarks(s: EState, r: EState, shrink: bool)
    requires s.delta <= s.outLen && r.log == s.log && r.outLen == s.outLen && r.delta == s.delta
    ensures Marks([R.Visit(0, R.Text(1))], s, r, shrink)
  {
    hide Cur;
    MarksOne(R.Visit(0, R.Text(1)), s, r, shrink);
  }

  /** A slot that leads nowhere holds 0 in the message. */
  lemma NullMet(sch: Schema, mem: seq<byte>, root: nat, nodes: set<Node>, msg: Message, slot: Slot, mslot: Slot, loc: nat, s: EState, r: EState, d: DState)
    requires ValidSchema(sch) && Emitted(sch, mem, root, nodes, [slot], loc, s, r) && !Leads(sch, mem, slot)
    requires Final(msg, s, r, [slot], loc) && Poised(msg, s, r, [slot], [mslot], loc, d)
    ensures mslot.ptr == 0
  {
    hide ValidSchema, Inv, BlocksOk, LoadPtr, Cur, Leads;
    assert SlotSet(sch, mem, r.buf, r.log, r.delta, [slot][0], loc);
    SlotValue(msg, r, slot, mslot, loc, d);
  }

  lemma {:induction false} StrLenSame(m: seq<byte>, p: nat, mem: seq<byte>, a: nat, n: nat)
    requires n == StrLen(mem, a) + 1 && p + n <= |m| && Load(m, p, n) == Load(mem, a, n)
    ensures StrLen(m, p) == StrLen(mem, a)
    decreases n
  {
    assert m[p] == Load(m, p, n)[0] && Load(mem, a, n)[0] == (if a < |mem| then mem[a] else 0);
    if NonZero(mem, a) {
      assert Load(m, p + 1, n - 1) == Load(m, p, n)[1..] && Load(mem, a + 1, n - 1) == Load(mem, a, n)[1..];
      StrLenSame(m, p + 1, mem, a + 1, n - 1);
    }
  }

  lemma TextMet(
    sch: Schema, mem: seq<byte>, root: nat, f0: nat, nodes: set<Node>, msg: Message, dest: Type -> nat, shrink: bool,
    slot: Slot, mslot: Slot, loc: nat, n: nat, s: EState, r: EState, d: DState)
    requires Valids(sch, [mslot], s) && ValidSlot(sch, mslot) && ValidSlot(sch, slot) && Emitting(sch, mem, root, f0, nodes, [slot], loc, n, s)
    requires Decide(sch, mem, slot, s.addrs).New? && slot.target.CString? && r == Follow(sch, mem, slot, loc, s) && r.outLen < POW64
    requires Final(msg, s, r, [slot], loc) && Poised(msg, s, r, [slot], [mslot], loc, d)
    ensures Marks([MeetSlot(sch, msg, dest, mslot, d.cur)], s, r, shrink)
  {
    hide ValidSchema, Graph, Inv, SlotsClosed, ValidSlot, LoadPtr, StorePtr, Cur, Find, SlotsAgree, PtrsOf, Follow, StrLen;
    FollowState(sch, mem, root, f0, nodes, slot, loc, n, s);
    var b := r.log[|s.log|];
    SlotValue(msg, r, slot, mslot, loc, d);
    NewOffset(sch, mem, root, nodes, s, r, b);
    assert b.size == StrLen(mem, slot.ptr) + 1;
    LoadSame(msg.m, r.buf, |s.buf|, |r.buf|, b.off, b.size);
    StrLenSame(msg.m, b.off, mem, slot.ptr, b.size);
    MarksOne(R.Visit(mslot.ptr, R.Text(b.size)), s, r, shrink);
  }

  lemma LoadSame(x: seq<byte>, y: seq<byte>, lo: nat, hi: nat, p: nat, n: nat)
    requires SameRange(x, y, lo, hi) && lo <= p && p + n <= hi <= |y| && hi <= |x|
    ensures Load(x, p, n) == Load(y, p, n)
  {
  }

  lemma ReuseAligned(sch: Schema, mem: seq<byte>, root: nat, nodes: set<Node>, s: EState, slot: Slot)
    requires Inv(sch, mem, root, nodes, s) && Find(s.addrs, slot.ptr) != -1 && slot.ptr != root && s.delta % 8 == 0
    ensures Find(s.addrs, slot.ptr) % 8 == 0
  {
    hide TargetSize, Find, AddrSet;
    var e := FindEntry(s.addrs, slot.ptr);
    assert EntryOk(s, e);
    var k :| 0 < k < |s.log| && s.log[k].tracked && s.log[k].src == e.addr && s.log[k].off == e.offset + s.delta;
    assert BlockShape(sch, mem, s, k, nodes);
  }

  lemma ReuseMet(
    sch: Schema, mem: seq<byte>, root: nat, f0: nat, nodes: set<Node>, msg: Message, dest: Type -> nat, shrink: bool,
    slot: Slot, mslot: Slot, loc: nat, n: nat, s: EState, r: EState, d: DState)
    requires Valids(sch, [mslot], s) && ValidSlot(sch, mslot) && ValidSlot(sch, slot) && Emitting(sch, mem, root, f0, nodes, [slot], loc, n, s)
    requires Decide(sch, mem, slot, s.addrs).Reuse? && s.outLen < POW64 && s.delta % 8 == 0
    requires r == s.(buf := StorePtr(s.buf, loc + slot.rel, Find(s.addrs, slot.ptr)))
    requires Final(msg, s, r, [slot], loc) && Poised(msg, s, r, [slot], [mslot], loc, d)
    ensures Marks([MeetSlot(sch, msg, dest, mslot, d.cur)], s, r, shrink)
  {
    hide ValidSchema, Graph, Inv, SlotSet, SlotClosed, LoadPtr, StorePtr, Cur, TargetSlots, TargetSize, Find, SlotsAgree, PtrsOf, Meant, ValidTarget;
    assert loc + [slot][0].rel + 8 <= |s.buf| && SlotClosed(sch, mem, root, [slot][0], nodes);
    ReuseSet(sch, mem, root, f0, nodes, slot, loc, s);
    NotRoot(sch, mem, root, f0, nodes, slot);
    ReuseBelowCur(sch, mem, root, nodes, s, slot);
    ReuseAligned(sch, mem, root, nodes, s, slot);
    LoadStorePtr(s.buf, loc + slot.rel, Find(s.addrs, slot.ptr));
    SlotValue(msg, r, slot, mslot, loc, d);
    var len := TargetSize(sch, msg.m, msg.delta + mslot.ptr, mslot.target);
    MeantSize(sch, mem, slot.ptr, slot.target, len, dest, []);
    NotText(sch, slot.target, len, dest, []);
    MarksOne(MeetSlot(sch, msg, dest, mslot, d.cur), s, r, shrink);
  }

  lemma NotText(sch: Schema, t: Target, len: nat, dest: Type -> nat, inside: seq<R.Visit>)
    requires t.Data?
    ensures var x := Meant(sch, t, len, dest, inside);
      !x.Text? && x.inside == inside && (x.One? ==> !t.typ.Array? && x.srcSize == ElemSize(sch, t.typ) && x.destSize == dest(t.typ))
  {
  }

  lemma {:induction false} SlotMet(
    sch: Schema, mem: seq<byte>, root: nat, f0: nat, nodes: set<Node>, msg: Message, dest: Type -> nat, shrink: bool,
    slot: Slot, mslot: Slot, loc: nat, n: nat, s: EState, r: EState, d: DState)
    requires Valids(sch, [mslot], s) && ValidSlot(sch, mslot) && ValidSlot(sch, slot) && Emitting(sch, mem, root, f0, nodes, [slot], loc, n, s)
    requires r == EmitSlot(sch, mem, slot, loc, s) && r.outLen < POW64 && (shrink ==> SinglesShrink(sch, dest, nodes)) && s.delta % 8 == 0
    requires Final(msg, s, r, [slot], loc) && Poised(msg, s, r, [slot], [mslot], loc, d)
    ensures Marks([MeetSlot(sch, msg, dest, mslot, d.cur)], s, r, shrink)
    decreases Unseen(s.addrs), if Descends(slot) then TargetRank(sch, slot.target) + 1 else 0, 0
  {
    hide ValidSchema, Emitting, Emitted, Final, Poised, Find, TargetSize, TargetSlots, TargetFlat, Unseen, MaxRank, TargetRank, ValidSlot, ValidSlots, Follow, StorePtr, Emit, Marks, Meet, Meant, SinglesShrink;
    EmitSlotMeaning(sch, mem, root, f0, nodes, slot, loc, n, s);
    match Decide(sch, mem, slot, s.addrs)
    case Leave =>
      NullMet(sch, mem, root, nodes, msg, slot, mslot, loc, s, r, d);
      NullMarks(s, r, shrink);
    case Clear =>
      NullMet(sch, mem, root, nodes, msg, slot, mslot, loc, s, r, d);
      NullMarks(s, r, shrink);
    case Reuse(_) => ReuseMet(sch, mem, root, f0, nodes, msg, dest, shrink, slot, mslot, loc, n, s, r, d);
    case New =>
      EmitSlotFrame(sch, mem, slot, loc, s);
      var s1 := Follow(sch, mem, slot, loc, s);
      var b := s1.log[|s.log|];
      if slot.target.CString? {
        FlatTextFacts(sch, slot);
        TextMet(sch, mem, root, f0, nodes, msg, dest, shrink, slot, mslot, loc, n, s, r, d);
      } else {
        DataSlot(sch, slot);
        var sub := TargetSlots(sch, mem, slot.ptr, slot.target);
        NewIsFollow(sch, mem, root, f0, nodes, slot, loc, n, s);
        FollowState(sch, mem, root, f0, nodes, slot, loc, n, s);
        Descent(sch, mem, slot, loc, s);
        SubEmitting(sch, mem, root, f0, nodes, slot, loc, n, s);
        EmitMeaning(sch, mem, root, f0, nodes, sub, b.off, b.size, s1);
        var d1 := DState(StorePtr(d.buf, loc + mslot.rel, Address(msg, b.off - s.delta)), b.off - s.delta);
        var msub := TargetSlots(sch, msg.m, b.off, slot.target);
        EnterObject(sch, mem, root, f0, nodes, msg, slot, mslot, loc, n, s, s1, r, d, d1);
        MeetTogether(sch, mem, root, f0, nodes, msg, dest, shrink, sub, msub, b.off, b.size, s1, r, d1);
        Facing(msg, s, r, [slot], [mslot], loc, d);
        ObjectMet(sch, mem, root, f0, nodes, msg, dest, shrink, slot, mslot, loc, n, s, s1, r, d);
      }
  }

  lemma Facing(msg: Message, s: EState, r: EState, slots: seq<Slot>, mslots: seq<Slot>, loc: nat, d: DState)
    requires Final(msg, s, r, slots, loc) && Poised(msg, s, r, slots, mslots, loc, d)
    ensures msg.delta == s.delta && d.cur == Cur(s.log, s.delta)
  {
  }

  lemma ObjectMet(
    sch: Schema, mem: seq<byte>, root: nat, f0: nat, nodes: set<Node>, msg: Message, dest: Type -> nat, shrink: bool,
    slot: Slot, mslot: Slot, loc: nat, n: nat, s: EState, s1: EState, r: EState, d: DState)
    requires ValidSchema(sch) && ValidSlot(sch, mslot) && ValidSlot(sch, slot) && slot.target.Data? && Emitting(sch, mem, root, f0, nodes, [slot], loc, n, s)
    requires Decide(sch, mem, slot, s.addrs).New? && s1 == Follow(sch, mem, slot, loc, s) && s1.outLen < POW64
    requires (shrink ==> SinglesShrink(sch, dest, nodes)) && s.delta % 8 == 0 && msg.delta == s.delta && d.cur == Cur(s.log, s.delta)
    requires var b := s1.log[|s.log|]; b.off > s.delta && mslot.ptr == b.off - s.delta && SameShape([mslot], [slot])
    requires var b := s1.log[|s.log|]; Marks(Meet(sch, msg, dest, TargetSlots(sch, msg.m, b.off, slot.target), b.off - s.delta), s1, r, shrink)
    ensures Marks([MeetSlot(sch, msg, dest, mslot, d.cur)], s, r, shrink)
  {
    hide ValidSchema, Graph, Inv, SlotsClosed, LoadPtr, Cur, TargetSlots, TargetSize, Find, Follow, Meant, ValidTarget, Meet, SlotSet;
    FollowState(sch, mem, root, f0, nodes, slot, loc, n, s);
    var b := s1.log[|s.log|];
    assert [mslot][0].target == [slot][0].target;
    NewOffset(sch, mem, root, nodes, s, s1, b);
    var inside := Meet(sch, msg, dest, TargetSlots(sch, msg.m, b.off, slot.target), b.off - s.delta);
    var len := TargetSize(sch, msg.m, msg.delta + mslot.ptr, mslot.target);
    MeantSize(sch, mem, slot.ptr, slot.target, len, dest, inside);
    NotText(sch, slot.target, len, dest, inside);
    var v := R.Visit(mslot.ptr, Meant(sch, slot.target, len, dest, inside));
    assert v == MeetSlot(sch, msg, dest, mslot, d.cur);
    PlacedAligned(sch, mem, root, nodes, s1, b);
    assert shrink && v.target.One? ==> v.target.destSize <= v.target.srcSize;
    ObjectMarks(v, s, s1, r, shrink);
  }

  lemma PlacedAligned(sch: Schema, mem: seq<byte>, root: nat, nodes: set<Node>, s: EState, b: Block)
    requires Inv(sch, mem, root, nodes, s) && s.log[|s.log| - 1] == b && b.target.Data? && s.delta % 8 == 0 && b.off >= s.delta
    ensures (b.off - s.delta) % 8 == 0
  {
    hide TargetSize, Tracked, AddrSet;
    assert BlockShape(sch, mem, s, |s.log| - 1, nodes);
  }

  lemma ObjectMarks(v: R.Visit, s: EState, s1: EState, r: EState, shrink: bool)
    requires s.delta <= s.outLen && !v.target.Text? && Marks(v.target.inside, s1, r, shrink) && R.Sized(v.target)
    requires MarkOf(s1) == R.Mark(v.offset, v.offset + R.SrcSize(v.target))
    requires v.offset > MarkOf(s).cur && v.offset >= MarkOf(s).end && v.offset % 8 == 0
    requires shrink && v.target.One? ==> v.target.destSize <= v.target.srcSize
    ensures Marks([v], s, r, shrink)
  {
    hide Cur, R.Sized, R.SrcSize, R.DestSize, R.Growth, Revisit.Trace, R.AfterAll, R.InOrder;
    MarksOne(v, s, r, shrink);
  }

  /** The visits of the conversion are in order while encoder and decoder walk together. */
  lemma {:induction false} MeetTogether(
    sch: Schema, mem: seq<byte>, root: nat, f0: nat, nodes: set<Node>, msg: Message, dest: Type -> nat, shrink: bool,
    slots: seq<Slot>, mslots: seq<Slot>, loc: nat, n: nat, s: EState, r: EState, d: DState)
    requires Valids(sch, mslots, s) && Emitting(sch, mem, root, f0, nodes, slots, loc, n, s)
    requires r == Emit(sch, mem, slots, loc, s) && r.outLen < POW64 && (shrink ==> SinglesShrink(sch, dest, nodes)) && s.delta % 8 == 0
    requires Final(msg, s, r, slots, loc) && Poised(msg, s, r, slots, mslots, loc, d)
    ensures Marks(Meet(sch, msg, dest, mslots, d.cur), s, r, shrink)
    decreases Unseen(s.addrs), MaxRank(sch, slots), |slots| + 1
  {
    hide ValidSchema, Emitting, Emitted, Final, Poised, Arrived, MaxRank, TargetRank, Unseen, EmitSlot, ConvSlot, ValidSlot, MeetSlot, Marks, SinglesShrink;
    if slots == [] {
      NoneMet(sch, msg, dest, shrink, slots, mslots, loc, s, r, d);
    } else {
      FirstEmitting(sch, mem, root, f0, nodes, slots, loc, n, s);
      EmittingValid(sch, mem, root, f0, nodes, slots, loc, n, s);
      var s1 := EmitSlot(sch, mem, slots[0], loc, s);
      EmitFrame(sch, mem, slots[1..], loc, s1);
      EmitSlotMeaning(sch, mem, root, f0, nodes, slots[0], loc, n, s);
      HeadRank(sch, slots);
      UnseenMonotone(s.addrs, s1.addrs);
      RestEmitting(sch, mem, root, f0, nodes, slots, loc, n, s, s1);
      EmitMeaning(sch, mem, root, f0, nodes, slots[1..], loc, n, s1);
      HeadPoised(sch, mem, root, f0, nodes, msg, slots, mslots, loc, n, s, s1, r, d);
      SlotTogether(sch, mem, root, f0, nodes, msg, slots[0], mslots[0], loc, n, s, s1, d);
      SlotMet(sch, mem, root, f0, nodes, msg, dest, shrink, slots[0], mslots[0], loc, n, s, s1, d);
      var d1 := ConvSlot(sch, msg, mslots[0], loc, d);
      RestPoised(sch, mem, root, f0, nodes, msg, slots, mslots, loc, n, s, s1, r, d, d1);
      MeetTogether(sch, mem, root, f0, nodes, msg, dest, shrink, slots[1..], mslots[1..], loc, n, s1, r, d1);
      var v := MeetSlot(sch, msg, dest, mslots[0], d.cur);
      CurPoised(msg, v, shrink, slots, mslots, loc, s, s1, r, d, d1);
      MarksJoin(v, Meet(sch, msg, dest, mslots[1..], d1.cur), s, s1, r, shrink);
    }
  }

  lemma NoneMet(sch: Schema, msg: Message, dest: Type -> nat, shrink: bool, slots: seq<Slot>, mslots: seq<Slot>, loc: nat, s: EState, r: EState, d: DState)
    requires ValidSchema(sch) && ValidSlots(sch, mslots) && slots == [] && r == s && Poised(msg, s, s, slots, mslots, loc, d) && s.delta <= s.outLen
    ensures Marks(Meet(sch, msg, dest, mslots, d.cur), s, r, shrink)
  {
    hide ValidSchema;
  }

  lemma CurPoised(msg: Message, v: R.Visit, shrink: bool, slots: seq<Slot>, mslots: seq<Slot>, loc: nat, s: EState, s1: EState, r: EState, d: DState, d1: DState)
    requires slots != [] && mslots != []
    requires Poised(msg, s, r, slots, mslots, loc, d) && Poised(msg, s1, r, slots[1..], mslots[1..], loc, d1) && Marks([v], s, s1, shrink)
    ensures R.CurAfter(v, d.cur) == d1.cur
  {
    hide R.After, R.InOrder1, R.InOrder, R.AfterAll, SlotsAgree, PtrsOf, SameRange, Cur;
    MarksOneIs(v, s, s1, shrink);
  }

  // ----- whole messages

  /** The pointers of a message, from its root record. */
  function AllMet(sch: Schema, f: nat, msg: Message, dest: Type -> nat): seq<R.Visit>
    requires ValidSchema(sch) && f < |sch|
  {
    Meet(sch, msg, dest, TargetSlots(sch, msg.m, msg.delta, Record(f)), 0)
  }

  lemma EncodedMarks(sch: Schema, f: nat, id: seq<byte>, mem: seq<byte>, root: nat, nodes: set<Node>, junk: byte, base: nat, dest: Type -> nat, shrink: bool)
    requires Encodable(sch, f, id, mem, root, nodes, junk, base) && (shrink ==> SinglesShrink(sch, dest, nodes))
    ensures var s := AfterStart(sch, f, id, mem, root, true, junk);
      && s.delta <= s.outLen && MarkOf(s) == R.Mark(0, s.outLen - s.delta)
      && Marks(AllMet(sch, f, MessageOf(sch, f, id, mem, root, junk, base), dest), s, Walked(sch, f, id, mem, root, junk), shrink)
  {
    hide ValidSchema, AfterStart, HeaderSize, Emit, FieldSlots, Emitting, Emitted, Final, Poised, Graph, Encode, Meet, SinglesShrink, ValidSlots, Marks;
    StartEmitting(sch, f, id, mem, root, nodes, junk, base);
    var s := AfterStart(sch, f, id, mem, root, true, junk);
    var e := Walked(sch, f, id, mem, root, junk);
    var slots := TargetSlots(sch, mem, root, Record(f));
    var msg := MessageOf(sch, f, id, mem, root, junk, base);
    var h := msg.delta;
    EmitMeaning(sch, mem, root, f, nodes, slots, h, sch[f].recordLength, s);
    var mslots := TargetSlots(sch, msg.m, h, Record(f));
    var d0 := DState(msg.m, 0);
    StartPoised(sch, f, mem, root, nodes, msg, slots, mslots, s, e, |id|);
    StartDelta(sch, mem, root, f, nodes, slots, h, sch[f].recordLength, s);
    MeetTogether(sch, mem, root, f, nodes, msg, dest, shrink, slots, mslots, h, sch[f].recordLength, s, e, d0);
  }

  /** Whatever the encoder encodes, shared and cyclic pointers included, is in order for every
      conversion under which no single value grows. */
  lemma EncodedInOrder(sch: Schema, f: nat, id: seq<byte>, mem: seq<byte>, root: nat, nodes: set<Node>, junk: byte, base: nat, dest: Type -> nat)
    requires Encodable(sch, f, id, mem, root, nodes, junk, base) && SinglesShrink(sch, dest, nodes)
    ensures var s := AfterStart(sch, f, id, mem, root, true, junk);
      && s.delta <= s.outLen
      && R.InOrder(AllMet(sch, f, MessageOf(sch, f, id, mem, root, junk, base), dest), R.Mark(0, s.outLen - s.delta))
  {
    hide ValidSchema, AfterStart, Encode, Meet, SinglesShrink, Graph, R.InOrder, Cur;
    EncodedMarks(sch, f, id, mem, root, nodes, junk, base, dest, true);
  }

  /** And, whatever grows, everything in it but text is at a multiple of 8. */
  lemma EncodedAligned(sch: Schema, f: nat, id: seq<byte>, mem: seq<byte>, root: nat, nodes: set<Node>, junk: byte, base: nat, dest: Type -> nat)
    requires Encodable(sch, f, id, mem, root, nodes, junk, base)
    ensures Revisit.OffsetsAligned(Revisit.Trace(AllMet(sch, f, MessageOf(sch, f, id, mem, root, junk, base), dest), 0))
  {
    hide ValidSchema, AfterStart, Encode, Meet, SinglesShrink, Graph, R.InOrder, Cur, Revisit.Trace, Revisit.OffsetsAligned;
    EncodedMarks(sch, f, id, mem, root, nodes, junk, base, dest, false);
  }

  /** Main result. Converting an encoded graph to any sizes under which no single value grows,
      arrays growing or shrinking as they will: the converted objects do not collide. */
  lemma EncodedApart(sch: Schema, f: nat, id: seq<byte>, mem: seq<byte>, root: nat, nodes: set<Node>, junk: byte, base: nat, dest: Type -> nat, to: int, adjust: int)
    requires Encodable(sch, f, id, mem, root, nodes, junk, base) && SinglesShrink(sch, dest, nodes)
    ensures var log := R.Walk(AllMet(sch, f, MessageOf(sch, f, id, mem, root, junk, base), dest), to, R.Initial(adjust)).log;
      R.Apart(log) && R.Aligned(log)
  {
    hide ValidSchema, AfterStart, Encode, Meet, SinglesShrink, Graph, R.InOrder, R.Walk, R.Apart, R.Aligned;
    EncodedInOrder(sch, f, id, mem, root, nodes, junk, base, dest);
    var s := AfterStart(sch, f, id, mem, root, true, junk);
    R.BlocksApart(AllMet(sch, f, MessageOf(sch, f, id, mem, root, junk, base), dest), to, adjust, s.outLen - s.delta);
  }

  /** Of the pointers that share an object in an encoded graph, a later one is given the address
      the first was given if and only if the growths since, rounded up, come to nothing. */
  lemma EncodedShared(sch: Schema, f: nat, id: seq<byte>, mem: seq<byte>, root: nat, nodes: set<Node>, junk: byte, base: nat, dest: Type -> nat, to: int, adjust: int, i: nat, j: nat)
    requires Encodable(sch, f, id, mem, root, nodes, junk, base)
    requires var ss := Revisit.Trace(AllMet(sch, f, MessageOf(sch, f, id, mem, root, junk, base), dest), 0);
      i < j < |ss| && !ss[i].text && !ss[j].text && ss[i].offset == ss[j].offset
    ensures var vs := AllMet(sch, f, MessageOf(sch, f, id, mem, root, junk, base), dest);
      var ss := Revisit.Trace(vs, 0); var ptrs := R.Walk(vs, to, R.Initial(adjust)).ptrs;
      |ptrs| == |ss| && ptrs[i].offset == ptrs[j].offset == ss[i].offset && (ptrs[j].dest == ptrs[i].dest <==> -8 < Revisit.Climb(ss[i + 1..j], ss[i].growth) <= 0)
  {
    hide ValidSchema, AfterStart, Encode, Meet, SinglesShrink, Graph, R.InOrder, R.Walk, Revisit.Trace, Revisit.Climb, Revisit.OffsetsAligned;
    EncodedAligned(sch, f, id, mem, root, nodes, junk, base, dest);
    Revisit.RevisitBySchema(AllMet(sch, f, MessageOf(sch, f, id, mem, root, junk, base), dest), to, adjust, i, j);
  }
}
