/** What the encoder relies on while it walks a record in its buffer: the part not yet
    processed is still a copy of user memory, and control fields keep their values. */
module EncodeReady {
  import opened Bytes
  import opened Formats
  import opened ObjectGraph
  import opened EncodeSpec
  import opened EncodeFrame

  /** The buffer holds, at loc, an unmodified copy of the n bytes at a. */
  ghost predicate CopyAt(buf: seq<byte>, loc: nat, mem: seq<byte>, a: nat, n: nat) {
    loc + n <= |buf| && Load(buf, loc, n) == Load(mem, a, n)
  }

  /** Control fields of the record at parent lie outside [lo, hi). */
  ghost predicate Apart(sch: Schema, f: nat, buf: seq<byte>, parent: nat, lo: nat, hi: nat)
    requires f < |sch|
  {
    && parent + sch[f].recordLength <= |buf|
    && forall j :: 0 <= j < |sch[f].fields| && sch[f].fields[j].typ.Simple? ==>
         var fd := sch[f].fields[j];
         hi <= parent + fd.offset || parent + fd.offset + fd.typ.size <= lo
  }

  ghost predicate SameOutside(b: seq<byte>, r: seq<byte>, lo: nat, hi: nat) {
    && |b| <= |r|
    && forall p :: 0 <= p < |b| && (p < lo || hi <= p) ==> r[p] == b[p]
  }

  lemma SlotsSameOutside(sch: Schema, slots: seq<Slot>, b: seq<byte>, r: seq<byte>, loc: nat, lo: nat, hi: nat)
    requires SlotsIn(sch, slots, lo, hi) && SameBut(b, r, slots, loc)
    ensures SameOutside(b, r, loc + lo, loc + hi)
  {
    forall p | 0 <= p < |b| && (p < loc + lo || loc + hi <= p)
      ensures OutsideSlots(slots, loc, p)
    {
    }
  }

  lemma CopyKept(b: seq<byte>, r: seq<byte>, lo: nat, hi: nat, loc: nat, mem: seq<byte>, a: nat, n: nat)
    requires SameOutside(b, r, lo, hi) && CopyAt(b, loc, mem, a, n)
    requires loc + n <= lo || hi <= loc
    ensures CopyAt(r, loc, mem, a, n)
  {
    assert Load(r, loc, n) == Load(b, loc, n);
  }

  lemma CountsKept(sch: Schema, f: nat, b: seq<byte>, r: seq<byte>, parent: nat, lo: nat, hi: nat)
    requires ValidSchema(sch) && f < |sch|
    requires Apart(sch, f, b, parent, lo, hi) && SameOutside(b, r, lo, hi)
    ensures Counts(sch, f, r, parent) == Counts(sch, f, b, parent)
    ensures Apart(sch, f, r, parent, lo, hi)
  {
    assert ValidFormat(sch, f);
    forall j | 0 <= j < |sch[f].fields| && sch[f].fields[j].typ.Simple?
      ensures Load(r, parent + sch[f].fields[j].offset, sch[f].fields[j].typ.size)
           == Load(b, parent + sch[f].fields[j].offset, sch[f].fields[j].typ.size)
    {
      var fd := sch[f].fields[j];
      ElemSizeIs(sch, fd.typ, []);
      assert fd.offset + fd.typ.size <= sch[f].recordLength;
    }
  }

  /** Ready to process a value of type t at loc, read under the control values of parent. */
  ghost predicate TypeReady(sch: Schema, mem: seq<byte>, buf: seq<byte>, f: nat, loc: nat, a: nat, n: nat, parent: nat, counts: seq<nat>)
    requires f < |sch|
  {
    && CopyAt(buf, loc, mem, a, n)
    && Counts(sch, f, buf, parent) == counts
    && Apart(sch, f, buf, parent, loc, loc + n)
  }

  /** Ready to process the fields from i on of the record at loc. */
  ghost predicate FieldsReady(sch: Schema, mem: seq<byte>, buf: seq<byte>, f: nat, i: nat, loc: nat, a: nat)
    requires f < |sch|
  {
    && loc + sch[f].recordLength <= |buf|
    && Counts(sch, f, buf, loc) == Counts(sch, f, mem, a)
    && forall j :: i <= j < |sch[f].fields| ==>
         CopyAt(buf, loc + sch[f].fields[j].offset, mem, a + sch[f].fields[j].offset, Extent(sch, sch[f].fields[j]))
  }

  lemma FieldsReadyStart(sch: Schema, mem: seq<byte>, buf: seq<byte>, f: nat, loc: nat, a: nat)
    requires f < |sch| && ValidSchema(sch) && CopyAt(buf, loc, mem, a, sch[f].recordLength)
    ensures FieldsReady(sch, mem, buf, f, 0, loc, a)
  {
    assert ValidFormat(sch, f);
    forall j | 0 <= j < |sch[f].fields|
      ensures CopyAt(buf, loc + sch[f].fields[j].offset, mem, a + sch[f].fields[j].offset, Extent(sch, sch[f].fields[j]))
    {
      var fd := sch[f].fields[j];
      LoadSub(buf, loc, mem, a, sch[f].recordLength, fd.offset, Extent(sch, fd));
    }
    forall j | 0 <= j < |sch[f].fields| && sch[f].fields[j].typ.Simple?
      ensures Load(buf, loc + sch[f].fields[j].offset, sch[f].fields[j].typ.size) == Load(mem, a + sch[f].fields[j].offset, sch[f].fields[j].typ.size)
    {
      ElemSizeIs(sch, sch[f].fields[j].typ, []);
    }
  }

  /** One field of a record: its type is valid, its slots come first in the record's list. */
  lemma FieldUnfold(sch: Schema, mem: seq<byte>, f: nat, i: nat, a: nat, rel: nat)
    requires ValidSchema(sch) && f < |sch| && i < |sch[f].fields|
    ensures var fd := sch[f].fields[i]; var counts := Counts(sch, f, mem, a);
      && ValidType(sch, f, fd.typ, false) && ByValueDepth(sch, fd.typ) <= sch[f].level
      && Size(sch, fd.typ, counts) == Extent(sch, fd)
      && var here := TypeSlots(sch, mem, f, fd.typ, counts, a + fd.offset, rel + fd.offset);
         var rest := FieldSlots(sch, mem, f, i + 1, a, rel);
         && FieldSlots(sch, mem, f, i, a, rel) == here + rest
         && MaxRank(sch, here) <= MaxRank(sch, FieldSlots(sch, mem, f, i, a, rel))
         && MaxRank(sch, rest) <= MaxRank(sch, FieldSlots(sch, mem, f, i, a, rel))
         && SlotsIn(sch, here, rel + fd.offset, rel + fd.offset + Extent(sch, fd))
         && (IsFlat(sch, fd.typ) ==> here == [])
  {
    hide TypeSlots, MaxRank, SlotsIn, ValidSlots, ValidType, IsFlat, ByValueDepth, Counts, Size;
    var fd := sch[f].fields[i];
    var counts := Counts(sch, f, mem, a);
    assert ValidFormat(sch, f);
    ByValueValid(sch, f, fd.typ);
    ByValueDepthOk(sch, f, fd.typ);
    FieldSize(sch, f, i, counts);
    TypeSlotsIn(sch, mem, f, fd.typ, counts, a + fd.offset, rel + fd.offset);
    MaxRankConcat(sch, TypeSlots(sch, mem, f, fd.typ, counts, a + fd.offset, rel + fd.offset), FieldSlots(sch, mem, f, i + 1, a, rel));
    if IsFlat(sch, fd.typ) {
      FlatTypeNoSlots(sch, mem, f, fd.typ, counts, a + fd.offset, rel + fd.offset);
    }
  }

  lemma FieldTypeReady(sch: Schema, mem: seq<byte>, buf: seq<byte>, f: nat, i: nat, loc: nat, a: nat)
    requires ValidSchema(sch) && f < |sch| && i < |sch[f].fields| && FieldsReady(sch, mem, buf, f, i, loc, a)
    requires !sch[f].fields[i].typ.Simple?
    ensures var fd := sch[f].fields[i];
      TypeReady(sch, mem, buf, f, loc + fd.offset, a + fd.offset, Extent(sch, fd), loc, Counts(sch, f, mem, a))
  {
    assert ValidFormat(sch, f);
    var fs := sch[f].fields;
    forall j | 0 <= j < |fs| && fs[j].typ.Simple?
      ensures fs[i].offset + Extent(sch, fs[i]) <= fs[j].offset || fs[j].offset + fs[j].typ.size <= fs[i].offset
    {
      ElemSizeIs(sch, fs[j].typ, []);
    }
  }

  lemma FieldsReadySkip(sch: Schema, mem: seq<byte>, b: seq<byte>, f: nat, i: nat, loc: nat, a: nat)
    requires f < |sch| && i < |sch[f].fields| && FieldsReady(sch, mem, b, f, i, loc, a)
    ensures FieldsReady(sch, mem, b, f, i + 1, loc, a)
  {
  }

  lemma ReadyCounts(sch: Schema, mem: seq<byte>, buf: seq<byte>, f: nat, loc: nat, a: nat, n: nat, parent: nat, counts: seq<nat>)
    requires f < |sch| && TypeReady(sch, mem, buf, f, loc, a, n, parent, counts)
    ensures Counts(sch, f, buf, parent) == counts
  {
  }

  lemma NoElems(sch: Schema, mem: seq<byte>, f: nat, e: Type, counts: seq<nat>, a: nat, rel: nat)
    requires ValidSchema(sch) && f < |sch| && ValidType(sch, f, e, false) && !e.Array?
    ensures ElemSlots(sch, mem, f, e, counts, 0, a, rel) == []
  {
  }

  /** Processing field i leaves the fields after it ready. */
  lemma FieldsReadyStep(sch: Schema, mem: seq<byte>, b: seq<byte>, r: seq<byte>, f: nat, i: nat, loc: nat, a: nat)
    requires ValidSchema(sch) && f < |sch| && i < |sch[f].fields| && FieldsReady(sch, mem, b, f, i, loc, a)
    requires !sch[f].fields[i].typ.Simple?
    requires SameOutside(b, r, loc + sch[f].fields[i].offset, loc + sch[f].fields[i].offset + Extent(sch, sch[f].fields[i]))
    ensures FieldsReady(sch, mem, r, f, i + 1, loc, a)
  {
    assert ValidFormat(sch, f);
    var fs := sch[f].fields;
    var lo := loc + fs[i].offset;
    var hi := lo + Extent(sch, fs[i]);
    FieldTypeReady(sch, mem, b, f, i, loc, a);
    CountsKept(sch, f, b, r, loc, lo, hi);
    forall j | i + 1 <= j < |fs|
      ensures CopyAt(r, loc + fs[j].offset, mem, a + fs[j].offset, Extent(sch, fs[j]))
    {
      CopyKept(b, r, lo, hi, loc + fs[j].offset, mem, a + fs[j].offset, Extent(sch, fs[j]));
    }
  }

  /** One element of an array. */
  lemma ElemUnfold(sch: Schema, mem: seq<byte>, f: nat, e: Type, counts: seq<nat>, n: nat, a: nat, rel: nat)
    requires ValidSchema(sch) && f < |sch| && ValidType(sch, f, e, false) && !e.Array? && n > 0
    ensures var z := ElemSize(sch, e);
      && n * z == z + (n - 1) * z && Size(sch, e, counts) == z
      && var here := TypeSlots(sch, mem, f, e, counts, a, rel);
         var rest := ElemSlots(sch, mem, f, e, counts, n - 1, a + z, rel + z);
         && ElemSlots(sch, mem, f, e, counts, n, a, rel) == here + rest
         && MaxRank(sch, here) <= MaxRank(sch, ElemSlots(sch, mem, f, e, counts, n, a, rel))
         && MaxRank(sch, rest) <= MaxRank(sch, ElemSlots(sch, mem, f, e, counts, n, a, rel))
         && SlotsIn(sch, here, rel, rel + z)
  {
    hide TypeSlots, MaxRank, SlotsIn, ValidSlots, ValidType, ElemSize, Size;
    var z := ElemSize(sch, e);
    MulStep(n, z);
    ElemSizeIs(sch, e, counts);
    TypeSlotsIn(sch, mem, f, e, counts, a, rel);
    MaxRankConcat(sch, TypeSlots(sch, mem, f, e, counts, a, rel), ElemSlots(sch, mem, f, e, counts, n - 1, a + z, rel + z));
  }

  /** Ready for n elements of size z, hence for the first, and for the others once it is done. */
  lemma ElemReady(sch: Schema, mem: seq<byte>, b: seq<byte>, f: nat, loc: nat, a: nat, z: nat, n: nat, parent: nat, counts: seq<nat>)
    requires ValidSchema(sch) && f < |sch| && n > 0 && n * z == z + (n - 1) * z
    requires TypeReady(sch, mem, b, f, loc, a, n * z, parent, counts)
    ensures TypeReady(sch, mem, b, f, loc, a, z, parent, counts)
  {
    assert (n - 1) * z >= 0;
    LoadSub(b, loc, mem, a, n * z, 0, z);
  }

  lemma ElemReadyStep(sch: Schema, mem: seq<byte>, b: seq<byte>, r: seq<byte>, f: nat, loc: nat, a: nat, z: nat, n: nat, parent: nat, counts: seq<nat>)
    requires ValidSchema(sch) && f < |sch| && n > 0 && n * z == z + (n - 1) * z
    requires TypeReady(sch, mem, b, f, loc, a, n * z, parent, counts) && SameOutside(b, r, loc, loc + z)
    ensures TypeReady(sch, mem, r, f, loc + z, a + z, (n - 1) * z, parent, counts)
  {
    assert (n - 1) * z >= 0;
    LoadSub(b, loc, mem, a, n * z, z, (n - 1) * z);
    CopyKept(b, r, loc, loc + z, loc + z, mem, a + z, (n - 1) * z);
    ElemReady(sch, mem, b, f, loc, a, z, n, parent, counts);
    CountsKept(sch, f, b, r, parent, loc, loc + z);
  }

  /** Ready to process n elements of type e at dataOffset. */
  ghost predicate ElementsReady(sch: Schema, mem: seq<byte>, s: EState, f: nat, e: Type, n: nat, loc: nat, dataOffset: nat, a: nat, parent: nat, counts: seq<nat>)
  {
    && ValidSchema(sch) && f < |sch| && ValidType(sch, f, e, false) && !e.Array? && loc <= dataOffset
    && s.delta <= s.outLen
    && TypeReady(sch, mem, s.buf, f, dataOffset, a, n * ElemSize(sch, e), parent, counts)
  }

  lemma StartElements(sch: Schema, mem: seq<byte>, s: EState, f: nat, e: Type, n: nat, loc: nat, dataOffset: nat, a: nat, parent: nat, counts: seq<nat>)
    requires ValidSchema(sch) && f < |sch| && ValidType(sch, f, e, false) && !e.Array? && loc <= dataOffset && s.delta <= s.outLen
    requires TypeReady(sch, mem, s.buf, f, dataOffset, a, n * ElemSize(sch, e), parent, counts)
    ensures ElementsReady(sch, mem, s, f, e, n, loc, dataOffset, a, parent, counts)
  {
    hide TypeReady, ValidSchema, ValidType, ElemSize;
  }

  lemma FirstReady(sch: Schema, mem: seq<byte>, s: EState, f: nat, e: Type, n: nat, loc: nat, dataOffset: nat, a: nat, parent: nat, counts: seq<nat>)
    requires n > 0 && ElementsReady(sch, mem, s, f, e, n, loc, dataOffset, a, parent, counts)
    ensures f < |sch| && !e.Array? && ValidSchema(sch) && ValidType(sch, f, e, false)
    ensures TypeReady(sch, mem, s.buf, f, dataOffset, a, Size(sch, e, counts), parent, counts)
    ensures MaxRank(sch, TypeSlots(sch, mem, f, e, counts, a, dataOffset - loc))
         <= MaxRank(sch, ElemSlots(sch, mem, f, e, counts, n, a, dataOffset - loc))
  {
    hide TypeReady, ValidSchema, ValidType, ElemSize, Size, TypeSlots, ElemSlots, MaxRank, SlotsIn;
    ElemUnfold(sch, mem, f, e, counts, n, a, dataOffset - loc);
    ElemReady(sch, mem, s.buf, f, dataOffset, a, ElemSize(sch, e), n, parent, counts);
  }

  lemma ElementDone(sch: Schema, mem: seq<byte>, s: EState, r: EState, f: nat, e: Type, n: nat, loc: nat, dataOffset: nat, a: nat, parent: nat, counts: seq<nat>)
    requires n > 0 && ElementsReady(sch, mem, s, f, e, n, loc, dataOffset, a, parent, counts)
    requires r == Emit(sch, mem, TypeSlots(sch, mem, f, e, counts, a, dataOffset - loc), loc, s)
    ensures ElementsReady(sch, mem, r, f, e, n - 1, loc, dataOffset + ElemSize(sch, e), a + ElemSize(sch, e), parent, counts)
    ensures var z := ElemSize(sch, e); var rest := ElemSlots(sch, mem, f, e, counts, n - 1, a + z, dataOffset + z - loc);
      && MaxRank(sch, rest) <= MaxRank(sch, ElemSlots(sch, mem, f, e, counts, n, a, dataOffset - loc))
      && Emit(sch, mem, ElemSlots(sch, mem, f, e, counts, n, a, dataOffset - loc), loc, s) == Emit(sch, mem, rest, loc, r)
  {
    hide TypeReady, ValidSchema, ValidType, ElemSize, Size, TypeSlots, ElemSlots, MaxRank, SlotsIn, SameBut, SameOutside, Emit;
    var z := ElemSize(sch, e);
    var rel := dataOffset - loc;
    var here := TypeSlots(sch, mem, f, e, counts, a, rel);
    ElemUnfold(sch, mem, f, e, counts, n, a, rel);
    EmitFrame(sch, mem, here, loc, s);
    SlotsSameOutside(sch, here, s.buf, r.buf, loc, rel, rel + z);
    ElemReadyStep(sch, mem, s.buf, r.buf, f, dataOffset, a, z, n, parent, counts);
    EmitAppend(sch, mem, here, ElemSlots(sch, mem, f, e, counts, n - 1, a + z, rel + z), loc, s);
  }

  lemma PointerReady(sch: Schema, mem: seq<byte>, buf: seq<byte>, f: nat, loc: nat, a: nat, parent: nat, counts: seq<nat>)
    requires f < |sch| && TypeReady(sch, mem, buf, f, loc, a, PointerSize, parent, counts)
    ensures LoadPtr(buf, loc) == LoadPtr(mem, a)
    ensures Counts(sch, f, buf, parent) == counts
    ensures Apart(sch, f, buf, parent, loc, loc + PointerSize) && loc + PointerSize <= |buf|
  {
  }

  /** The cases of a single slot. */
  lemma EmitDecided(sch: Schema, mem: seq<byte>, slot: Slot, loc: nat, s: EState)
    requires ValidSchema(sch) && s.delta <= s.outLen && ValidSlot(sch, slot)
    ensures var r := Emit(sch, mem, [slot], loc, s);
      match Decide(sch, mem, slot, s.addrs)
      case Leave => r == s
      case Reuse(o) => r == s.(buf := StorePtr(s.buf, loc + slot.rel, o))
      case Clear => r == s.(buf := StorePtr(s.buf, loc + slot.rel, 0))
      case New => TargetFlat(sch, slot.target) ==> r == Follow(sch, mem, slot, loc, s)
  {
    EmitOne(sch, mem, slot, loc, s);
  }

  /** The fresh copy of a pointer's target is ready to be walked, which is all that remains. */
  lemma FollowReady(sch: Schema, mem: seq<byte>, slot: Slot, loc: nat, s: EState, f: nat, next: Type, parent: nat, counts: seq<nat>)
    requires ValidSchema(sch) && f < |sch| && s.delta <= s.outLen
    requires ValidType(sch, f, next, false) && slot.target == Aim(sch, f, next, counts) && ValidSlot(sch, slot)
    requires Decide(sch, mem, slot, s.addrs).New? && !IsFlat(sch, next)
    requires Counts(sch, f, s.buf, parent) == counts
    requires Apart(sch, f, s.buf, parent, loc + slot.rel, loc + slot.rel + PointerSize)
    requires loc + slot.rel + PointerSize <= |s.buf|
    ensures var r := Follow(sch, mem, slot, loc, s); var at := r.log[|s.log|].tmp;
      && ValidType(sch, f, next, false)
      && TypeReady(sch, mem, r.buf, f, at, slot.ptr, Size(sch, next, counts), parent, counts)
      && Emit(sch, mem, [slot], loc, s) == Emit(sch, mem, TypeSlots(sch, mem, f, next, counts, slot.ptr, 0), at, r)
      && (Unseen(r.addrs) < Unseen(s.addrs)
          || (r.addrs == s.addrs && MaxRank(sch, TypeSlots(sch, mem, f, next, counts, slot.ptr, 0)) < MaxRank(sch, [slot])))
  {
    hide ValidSchema, ValidFormat, Unseen, MaxRank, TargetRank, Emit, TypeSlots, Size, Counts, TargetSlots, TargetSize, TargetFlat, Resolve, Home, Follow, IsFlat;
    AimIs(sch, mem, f, next, counts, slot.ptr);
    EmitOne(sch, mem, slot, loc, s);
    Descent(sch, mem, slot, loc, s);
    if !slot.tracked { RankOfOne(sch, slot); }
    FollowFresh(sch, mem, slot, loc, s, f, next, parent, counts);
  }

  lemma FollowFresh(sch: Schema, mem: seq<byte>, slot: Slot, loc: nat, s: EState, f: nat, next: Type, parent: nat, counts: seq<nat>)
    requires ValidSchema(sch) && s.delta <= s.outLen && f < |sch|
    requires !TargetFlat(sch, slot.target) && TargetSize(sch, mem, slot.ptr, slot.target) == Size(sch, next, counts)
    requires loc + slot.rel + PointerSize <= |s.buf|
    requires Counts(sch, f, s.buf, parent) == counts
    requires Apart(sch, f, s.buf, parent, loc + slot.rel, loc + slot.rel + PointerSize)
    ensures var r := Follow(sch, mem, slot, loc, s);
      TypeReady(sch, mem, r.buf, f, r.log[|s.log|].tmp, slot.ptr, Size(sch, next, counts), parent, counts)
  {
    hide Size, Counts, Place, TargetSize, TargetFlat;
    assert !InPlace(sch, slot.target, s.copyAll);
    PlaceShape(sch, mem, slot, s);
    var p := Place(sch, mem, slot, s);
    var r := Follow(sch, mem, slot, loc, s);
    var b := r.log[|s.log|];
    var lo := loc + slot.rel;
    assert SameOutside(s.buf, r.buf, lo, lo + PointerSize) by {
      assert forall q :: 0 <= q < |s.buf| ==> p.buf[q] == p.buf[..|s.buf|][q];
    }
    CountsKept(sch, f, s.buf, r.buf, parent, lo, lo + PointerSize);
    assert r.buf[b.tmp..b.tmp + b.size] == p.buf[b.tmp..b.tmp + b.size];
    assert ValidFormat(sch, f);
    forall j | 0 <= j < |sch[f].fields| && sch[f].fields[j].typ.Simple?
      ensures parent + sch[f].fields[j].offset + sch[f].fields[j].typ.size <= b.tmp
    {
      SimpleExtent(sch, sch[f].fields[j]);
    }
  }

  lemma SimpleExtent(sch: Schema, fd: Field)
    requires fd.typ.Simple?
    ensures Extent(sch, fd) == fd.typ.size
  {
  }

  /** The base record sits right after the header, at the same place in message and buffer. */
  lemma BaseShape(sch: Schema, f: nat, id: seq<byte>, mem: seq<byte>, root: nat, copyAll: bool, junk: byte)
    requires f < |sch|
    ensures var s := AfterBase(sch, f, id, mem, root, copyAll, junk); var h := HeaderSize(|id|, sch[f].variant);
      && |s.log| == 1 && s.log[0].copied == (sch[f].variant || copyAll)
      && s.log[0] == Block(root, h, sch[f].recordLength, false, Record(f), s.log[0].copied, s.log[0].tmp)
      && s.delta == h && s.outLen == h + sch[f].recordLength
      && h <= |s.buf| && s.buf[..h] == Header(id, sch[f].variant)
      && (s.log[0].copied ==> s.log[0].tmp == h && |s.buf| == s.outLen && CopyAt(s.buf, h, mem, root, sch[f].recordLength))
      && (!s.log[0].copied ==> |s.buf| == h)
      && |s.iov| > 0 && s.addrs == [] && (s.log[0].copied ==> s.iov[|s.iov| - 1].Tmp?)
  {
    var data := Load(mem, root, sch[f].recordLength);
    var h := HeaderSize(|id|, sch[f].variant);
    var b := Header(id, sch[f].variant) + Fill(|data|, junk);
    assert b[..h] == Header(id, sch[f].variant);
    assert Store(b, h, data)[..h] == b[..h];
    assert Load(data, 0, |data|) == data;
  }

  lemma StartShape(sch: Schema, f: nat, id: seq<byte>, mem: seq<byte>, root: nat, copyAll: bool, junk: byte)
    requires f < |sch| && sch[f].variant
    ensures var s := AfterStart(sch, f, id, mem, root, copyAll, junk); var h := HeaderSize(|id|, true);
      && |s.log| == 1 && s.log[0] == Block(root, h, sch[f].recordLength, false, Record(f), true, h)
      && s.delta == h && s.outLen == h + sch[f].recordLength + PadTo(8, sch[f].recordLength)
      && |s.buf| == s.outLen && CopyAt(s.buf, h, mem, root, sch[f].recordLength)
      && s.buf[..h] == Header(id, true)
      && s.addrs == if sch[f].recursive then [Entry(root, h)] else []
  {
    hide AfterBase, HeaderSize, Header, PadTo;
    BaseShape(sch, f, id, mem, root, copyAll, junk);
    var s1 := AfterBase(sch, f, id, mem, root, copyAll, junk);
    var s2 := if sch[f].recursive then s1.(addrs := [Entry(root, s1.log[0].off)]) else s1;
    var s := AfterStart(sch, f, id, mem, root, copyAll, junk);
    var h := HeaderSize(|id|, true);
    var n := sch[f].recordLength;
    AlignEmpty(s2);
    PadAfterHeader(h, n);
    assert s.buf == s1.buf + Fill(PadTo(8, s1.outLen), 0);
    assert Load(s.buf, h, n) == Load(s1.buf, h, n);
    assert s.buf[..h] == s1.buf[..h];
  }

  lemma PadAfterHeader(h: nat, n: nat)
    requires h % 8 == 0
    ensures PadTo(8, h + n) == PadTo(8, n)
  {
  }

  /** Forcing alignment extends the last piece of the buffer. */
  lemma AlignEmpty(s: EState)
    requires |s.iov| > 0 && s.iov[|s.iov| - 1].Tmp?
    ensures var r := CopyToTmp(s, [], 8).0; var last := s.iov[|s.iov| - 1];
      r == s.(buf := s.buf + Fill(PadTo(8, s.outLen), 0), outLen := s.outLen + PadTo(8, s.outLen),
              iov := s.iov[|s.iov| - 1 := Tmp(last.off, last.len + PadTo(8, s.outLen))])
  {
    assert Fill(PadTo(8, s.outLen), 0) + Fill(0, s.junk) == Fill(PadTo(8, s.outLen), 0);
    assert s.buf + Fill(0, s.junk) == s.buf;
    if PadTo(8, s.outLen) == 0 {
      assert s.buf + Fill(0, 0) == s.buf;
    } else {
      assert s.buf + Fill(PadTo(8, s.outLen), 0) + Fill(0, s.junk) == s.buf + Fill(PadTo(8, s.outLen), 0);
    }
  }
}
