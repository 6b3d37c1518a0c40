/** The encoder (ffs/ffs.c): walks a record in its temporary buffer by type descriptors,
    appends what its pointers lead to and overwrites the pointers with message offsets. */
module Encoder {
  import opened Bytes
  import opened Formats
  import opened ObjectGraph
  import opened EncodeFrame
  import opened EncodeReady
  import opened EncodeSpec

  const STACK_ARRAY_SIZE: nat := 100

  class Encoder {
    const sch: Schema
    const mem: seq<byte>
    const copyAll: bool
    const junk: byte

    var tmpBuffer: seq<byte>
    var outputLen: nat
    var savedOffsetDifference: nat
    var iovec: seq<Iov>
    var mallocVecSize: nat
    var addrList: seq<Entry>
    var addrListIsStack: bool
    var mallocAddrSize: nat
    ghost var log: seq<Block>

    ghost function State(): EState
      reads this
    {
      EState(copyAll, outputLen, savedOffsetDifference, iovec, addrList, tmpBuffer, log, junk)
    }

    function VecCapacity(): nat
      reads this
    {
      if mallocVecSize == 0 then STACK_ARRAY_SIZE else mallocVecSize
    }

    function AddrCapacity(): nat
      reads this
    {
      if addrListIsStack then STACK_ARRAY_SIZE else mallocAddrSize
    }

    /** The arrays behind the gather vector and the address list are never overrun. */
    ghost predicate Valid()
      reads this
    {
      && ValidSchema(sch)
      && savedOffsetDifference <= outputLen
      && |iovec| <= VecCapacity()
      && (mallocVecSize == 0 || mallocVecSize >= 2 * STACK_ARRAY_SIZE)
      && |addrList| <= AddrCapacity()
      && (addrListIsStack || mallocAddrSize >= 2 * STACK_ARRAY_SIZE)
    }

    constructor (sch: Schema, mem: seq<byte>, copyAll: bool, junk: byte)
      requires ValidSchema(sch)
      ensures Valid() && this.sch == sch && this.mem == mem && this.copyAll == copyAll && this.junk == junk
      ensures State() == EState(copyAll, 0, 0, [], [], [], [], junk)
    {
      this.sch, this.mem, this.copyAll, this.junk := sch, mem, copyAll, junk;
      tmpBuffer, outputLen, savedOffsetDifference, iovec, addrList, log := [], 0, 0, [], [], [];
      mallocVecSize, addrListIsStack, mallocAddrSize := 0, true, 0;
    }

    /** Room for add more entries in the gather vector. */
    method EnsureWritevRoom(add: nat)
      requires Valid() && add <= STACK_ARRAY_SIZE
      modifies this`mallocVecSize
      ensures Valid() && |iovec| + add <= VecCapacity()
    {
      if mallocVecSize == 0 && |iovec| >= STACK_ARRAY_SIZE - add {
        mallocVecSize := 2 * STACK_ARRAY_SIZE + add;
      } else if mallocVecSize != 0 && |iovec| >= mallocVecSize - add {
        mallocVecSize := mallocVecSize * 2;
      }
    }

    method AddToTmpBuffer(size: nat) returns (oldSize: nat)
      modifies this`tmpBuffer
      ensures oldSize == old(|tmpBuffer|) && tmpBuffer == old(tmpBuffer) + Fill(size, junk)
    {
      oldSize := |tmpBuffer|;
      tmpBuffer := tmpBuffer + Fill(size, junk);
    }

    method AllocateTmpSpace(length: nat, align: nat) returns (msgOffset: nat, tmpDataLoc: nat)
      requires Valid() && IsAlignment(align)
      modifies this
      ensures Valid() && |iovec| + 1 <= VecCapacity()
      ensures (State(), msgOffset, tmpDataLoc) == EncodeSpec.AllocateTmpSpace(old(State()), length, align)
      ensures tmpDataLoc + length <= |tmpBuffer|
    {
      var pad := PadTo(align, outputLen);
      EnsureWritevRoom(2);
      tmpDataLoc := AddToTmpBuffer(length + pad);
      if pad != 0 {
        if |iovec| > 0 && iovec[|iovec| - 1].Tmp? {
          tmpBuffer := Store(tmpBuffer, tmpDataLoc, Fill(pad, 0));
          tmpDataLoc := tmpDataLoc + pad;
          var last := iovec[|iovec| - 1];
          iovec := iovec[|iovec| - 1 := Tmp(last.off, last.len + pad)];
          assert tmpBuffer == old(tmpBuffer) + Fill(pad, 0) + Fill(length, junk);
        } else {
          iovec := iovec + [Pad(pad)];
        }
      }
      msgOffset := outputLen + pad;
      outputLen := outputLen + length + pad;
    }

    method CopyDataToTmp(data: seq<byte>, align: nat) returns (msgOffset: nat, tmpDataLoc: nat)
      requires Valid() && IsAlignment(align)
      modifies this
      ensures Valid()
      ensures (State(), msgOffset, tmpDataLoc) == CopyToTmp(old(State()), data, align)
    {
      msgOffset, tmpDataLoc := AllocateTmpSpace(|data|, align);
      if |data| != 0 {
        tmpBuffer := Store(tmpBuffer, tmpDataLoc, data);
        iovec := iovec + [Tmp(tmpDataLoc, |data|)];
      }
    }

    method AddDataIovec(addr: nat, length: nat, align: nat) returns (msgOffset: nat)
      requires Valid() && IsAlignment(align)
      modifies this
      ensures Valid()
      ensures (State(), msgOffset) == AddIovec(old(State()), addr, length, align)
    {
      var pad := PadTo(align, outputLen);
      EnsureWritevRoom(2);
      if pad != 0 {
        iovec := iovec + [Pad(pad)];
        outputLen := outputLen + pad;
      }
      if length != 0 {
        iovec := iovec + [User(addr, length)];
      }
      msgOffset := outputLen;
      outputLen := outputLen + length;
    }

    method SearchAddrList(addr: nat) returns (previous: int)
      ensures previous == Find(addrList, addr)
    {
      previous := -1;
      var i := 0;
      while i < |addrList|
        invariant i <= |addrList| && previous == Find(addrList[..i], addr)
      {
        assert addrList[..i + 1][..i] == addrList[..i];
        if addrList[i].addr == addr {
          previous := addrList[i].offset;
        }
        i := i + 1;
      }
      assert addrList[..i] == addrList;
    }

    method AddToAddrList(addr: nat, offset: nat)
      requires Valid()
      modifies this`addrList, this`addrListIsStack, this`mallocAddrSize
      ensures Valid() && addrList == old(addrList) + [Entry(addr, offset)]
    {
      if addrListIsStack {
        if |addrList| == STACK_ARRAY_SIZE {
          addrListIsStack := false;
          mallocAddrSize := 2 * STACK_ARRAY_SIZE;
        }
      } else if |addrList| == mallocAddrSize {
        mallocAddrSize := mallocAddrSize * 2;
      }
      addrList := addrList + [Entry(addr, offset)];
    }

    /** Control values of the record at parentOffset, as the buffer has them. */
    ghost function BufferCounts(f: nat, parentOffset: nat): seq<nat>
      requires f < |sch|
      reads this
    {
      Counts(sch, f, tmpBuffer, parentOffset)
    }

    method DimensionSize(f: nat, parentOffset: nat, d: Dim) returns (n: nat)
      requires f < |sch| && (d.Control? ==> d.field < |sch[f].fields| && sch[f].fields[d.field].typ.Simple?)
      ensures n == DimSize(d, BufferCounts(f, parentOffset))
    {
      match d {
        case Static(k) => n := k;
        case Control(j) =>
          var fd := sch[f].fields[j];
          n := ReadCount(tmpBuffer, parentOffset + fd.offset, fd.typ.size);
      }
    }

    /** The element count and element type below all dimensions of an array. */
    method Elements(f: nat, parentOffset: nat, t: Type) returns (elements: nat, next: Type)
      requires f < |sch| && ValidType(sch, f, t, false)
      ensures next == ElemType(t) && elements == ElemCount(t, BufferCounts(f, parentOffset))
    {
      elements := 1;
      next := t;
      while next.Array?
        invariant ValidType(sch, f, next, false) && ElemType(next) == ElemType(t)
        invariant elements * ElemCount(next, BufferCounts(f, parentOffset)) == ElemCount(t, BufferCounts(f, parentOffset))
        decreases next
      {
        var n := DimensionSize(f, parentOffset, next.dim);
        MulAssoc(elements, n, ElemCount(next.next, BufferCounts(f, parentOffset)));
        elements := elements * n;
        next := next.next;
      }
    }

    method DetermineSize(f: nat, parentOffset: nat, t: Type) returns (size: nat)
      requires f < |sch| && ValidType(sch, f, t, false)
      ensures size == Size(sch, t, BufferCounts(f, parentOffset))
    {
      var elements, next := Elements(f, parentOffset, t);
      size := elements * ElemSize(sch, next);
    }

    /** Follow the pointers of every field of the record at dataOffset, a copy of the record
        at a, inside the object that starts at loc in the buffer. */
    method HandleSubfields(f: nat, dataOffset: nat, ghost a: nat, ghost loc: nat)
      requires Valid() && f < |sch| && loc <= dataOffset
      requires CopyAt(tmpBuffer, dataOffset, mem, a, sch[f].recordLength)
      modifies this
      ensures Valid()
      ensures State() == Emit(sch, mem, FieldSlots(sch, mem, f, 0, a, dataOffset - loc), loc, old(State()))
      decreases Unseen(addrList), MaxRank(sch, FieldSlots(sch, mem, f, 0, a, dataOffset - loc)), sch[f].level, 1, 0, 0
    {
      hide Emit, EmitSlot, TypeSlots, ElemSlots, MaxRank, TargetRank, SlotsIn, ValidSlots, ValidSlot, ValidType, ValidSchema, ValidFormat, Unseen, SameBut, SameOutside, FieldsReady, TypeReady, ByValueDepth, Height, Counts, Size, ElemSize;
      ghost var rel := dataOffset - loc;
      ghost var slots := FieldSlots(sch, mem, f, 0, a, rel);
      if !sch[f].variant {
        FlatFieldsNoSlots(sch, mem, f, 0, a, rel);
        EmitNone(sch, mem, loc, State());
        return;
      }
      ghost var s0 := State();
      FieldsReadyStart(sch, mem, tmpBuffer, f, dataOffset, a);
      var i := 0;
      while i < |sch[f].fields|
        invariant i <= |sch[f].fields| && Valid()
        invariant s0.addrs <= addrList
        invariant MaxRank(sch, FieldSlots(sch, mem, f, i, a, rel)) <= MaxRank(sch, slots)
        invariant Emit(sch, mem, slots, loc, s0) == Emit(sch, mem, FieldSlots(sch, mem, f, i, a, rel), loc, State())
        invariant FieldsReady(sch, mem, tmpBuffer, f, i, dataOffset, a)
      {
        var fd := sch[f].fields[i];
        ghost var s := State();
        ghost var counts := Counts(sch, f, mem, a);
        FieldUnfold(sch, mem, f, i, a, rel);
        ghost var here := TypeSlots(sch, mem, f, fd.typ, counts, a + fd.offset, rel + fd.offset);
        UnseenMonotone(s0.addrs, addrList);
        if !IsFlat(sch, fd.typ) {
          FieldTypeReady(sch, mem, tmpBuffer, f, i, dataOffset, a);
          HandleSubfield(f, dataOffset + fd.offset, dataOffset, fd.typ, a + fd.offset, loc, counts);
          EmitFrame(sch, mem, here, loc, s);
          SlotsSameOutside(sch, here, s.buf, tmpBuffer, loc, rel + fd.offset, rel + fd.offset + Extent(sch, fd));
          FieldsReadyStep(sch, mem, s.buf, tmpBuffer, f, i, dataOffset, a);
        } else {
          FieldsReadySkip(sch, mem, tmpBuffer, f, i, dataOffset, a);
          EmitNone(sch, mem, loc, s);
        }
        EmitAppend(sch, mem, here, FieldSlots(sch, mem, f, i + 1, a, rel), loc, s);
        i := i + 1;
      }
      EmitNone(sch, mem, loc, State());
    }

    /** Follow the pointers in a value of type t at dataOffset, a copy of the value at a. */
    method HandleSubfield(f: nat, dataOffset: nat, parentOffset: nat, t: Type, ghost a: nat, ghost loc: nat, ghost counts: seq<nat>)
      requires Valid() && f < |sch| && ValidType(sch, f, t, false) && loc <= dataOffset
      requires TypeReady(sch, mem, tmpBuffer, f, dataOffset, a, Size(sch, t, counts), parentOffset, counts)
      modifies this
      ensures Valid()
      ensures State() == Emit(sch, mem, TypeSlots(sch, mem, f, t, counts, a, dataOffset - loc), loc, old(State()))
      decreases Unseen(addrList), MaxRank(sch, TypeSlots(sch, mem, f, t, counts, a, dataOffset - loc)), ByValueDepth(sch, t), 0, Height(t), 1
    {
      match t {
        case Simple(_) =>
        case Text => HandleText(dataOffset, a, loc);
        case Pointer(next) => HandlePointer(f, dataOffset, parentOffset, next, a, loc, counts);
        case Array(_, _) =>
          ElemTypeValid(sch, f, t, false);
          ElemDepth(sch, t);
          HandleArray(f, dataOffset, parentOffset, t, a, loc, counts);
        case Subformat(g) =>
          ElemSizeIs(sch, t, counts);
          HandleSubfields(g, dataOffset, a, loc);
      }
    }

    /** Leave the target where it sits, or copy it. */
    method PlaceTarget(ptr: nat, size: nat, inPlace: bool, align: nat, ghost slot: Slot) returns (newOffset: nat, tmpDataLoc: nat)
      requires Valid() && slot.ptr == ptr && size == TargetSize(sch, mem, ptr, slot.target)
      requires inPlace == InPlace(sch, slot.target, copyAll) && align == Alignment(slot.target)
      modifies this
      ensures Valid() && State() == Place(sch, mem, slot, old(State()))
      ensures newOffset == log[|old(log)|].off && tmpDataLoc == log[|old(log)|].tmp
    {
      hide ValidSchema, TargetSize, EncodeSpec.AllocateTmpSpace, InPlace, CopyToTmp, AddIovec;
      if inPlace {
        newOffset := AddDataIovec(ptr, size, align);
        tmpDataLoc := 0;
      } else {
        newOffset, tmpDataLoc := CopyDataToTmp(Load(mem, ptr, size), align);
      }
      log := log + [Block(ptr, newOffset, size, slot.tracked, slot.target, !inPlace, tmpDataLoc)];
    }

    /** Place the target, point the pointer at dataOffset at it, and record tracked addresses. */
    method EmitTarget(ptr: nat, size: nat, inPlace: bool, align: nat, tracked: bool, dataOffset: nat, ghost slot: Slot, ghost loc: nat)
      returns (tmpDataLoc: nat)
      requires Valid() && slot.ptr == ptr && size == TargetSize(sch, mem, ptr, slot.target)
      requires inPlace == InPlace(sch, slot.target, copyAll) && align == Alignment(slot.target)
      requires tracked == slot.tracked && dataOffset == loc + slot.rel
      modifies this
      ensures Valid() && State() == Follow(sch, mem, slot, loc, old(State()))
      ensures tmpDataLoc == log[|old(log)|].tmp
    {
      hide ValidSchema, TargetSize, InPlace, Place, StorePtr;
      var newOffset;
      newOffset, tmpDataLoc := PlaceTarget(ptr, size, inPlace, align, slot);
      tmpBuffer := StorePtr(tmpBuffer, dataOffset, newOffset - savedOffsetDifference);
      if tracked {
        AddToAddrList(ptr, newOffset - savedOffsetDifference);
      }
    }

    method HandleText(dataOffset: nat, ghost a: nat, ghost loc: nat)
      requires Valid() && loc <= dataOffset && CopyAt(tmpBuffer, dataOffset, mem, a, PointerSize)
      modifies this
      ensures Valid()
      ensures State() == Emit(sch, mem, [Slot(dataOffset - loc, LoadPtr(mem, a), false, CString)], loc, old(State()))
    {
      ghost var s := State();
      ghost var slot := Slot(dataOffset - loc, LoadPtr(mem, a), false, CString);
      EmitOne(sch, mem, slot, loc, s);
      var ptr := LoadPtr(tmpBuffer, dataOffset);
      if ptr == 0 { return; }
      var size := StrLen(mem, ptr) + 1;
      var _ := EmitTarget(ptr, size, !copyAll, 1, false, dataOffset, slot, loc);
    }

    ghost function PointerSlot(f: nat, next: Type, counts: seq<nat>, a: nat, rel: nat): (s: Slot)
      requires f < |sch| && ValidType(sch, f, next, false)
      ensures ValidSlot(sch, s)
    {
      Slot(rel, LoadPtr(mem, a), sch[f].recursive, Aim(sch, f, next, counts))
    }

    method HandlePointer(f: nat, dataOffset: nat, parentOffset: nat, next: Type, ghost a: nat, ghost loc: nat, ghost counts: seq<nat>)
      requires Valid() && f < |sch| && ValidType(sch, f, next, false) && loc <= dataOffset
      requires TypeReady(sch, mem, tmpBuffer, f, dataOffset, a, PointerSize, parentOffset, counts)
      modifies this
      ensures Valid()
      ensures State() == Emit(sch, mem, [PointerSlot(f, next, counts, a, dataOffset - loc)], loc, old(State()))
      decreases Unseen(addrList), MaxRank(sch, [PointerSlot(f, next, counts, a, dataOffset - loc)]), 0, 0, Height(next) + 1, 0
    {
      hide Emit, EmitSlot, MaxRank, TargetRank, ValidType, ValidSchema, ValidFormat, Unseen, Counts, Size, TypeReady, TypeSlots, IsFlat, Follow, Find, AddrSet, ByValueDepth, Height, LoadPtr, StorePtr, TargetSize, TargetFlat, TargetSlots, Resolve, Home;
      ghost var s := State();
      ghost var slot := PointerSlot(f, next, counts, a, dataOffset - loc);
      AimIs(sch, mem, f, next, counts, slot.ptr);
      EmitDecided(sch, mem, slot, loc, s);
      PointerReady(sch, mem, tmpBuffer, f, dataOffset, a, parentOffset, counts);
      var ptr := LoadPtr(tmpBuffer, dataOffset);
      if ptr == 0 { return; }
      if sch[f].recursive {
        var previous := SearchAddrList(ptr);
        if previous != -1 {
          tmpBuffer := StorePtr(tmpBuffer, dataOffset, previous);
          return;
        }
      }
      var size := DetermineSize(f, parentOffset, next);
      if size == 0 {
        tmpBuffer := StorePtr(tmpBuffer, dataOffset, 0);
        return;
      }
      assert size == TargetSize(sch, mem, slot.ptr, slot.target);
      assert Decide(sch, mem, slot, s.addrs).New?;
      var tmpDataLoc := EmitTarget(ptr, size, !copyAll && IsFlat(sch, next), 8, sch[f].recursive, dataOffset, slot, loc);
      if IsFlat(sch, next) { return; }
      FollowReady(sch, mem, slot, loc, s, f, next, parentOffset, counts);
      HandleSubfield(f, tmpDataLoc, parentOffset, next, ptr, tmpDataLoc, counts);
    }

    method HandleArray(f: nat, dataOffset: nat, parentOffset: nat, t: Type, ghost a: nat, ghost loc: nat, ghost counts: seq<nat>)
      requires Valid() && f < |sch| && ValidType(sch, f, t, false) && ValidType(sch, f, ElemType(t), false) && t.Array? && loc <= dataOffset
      requires TypeReady(sch, mem, tmpBuffer, f, dataOffset, a, ElemCount(t, counts) * ElemSize(sch, ElemType(t)), parentOffset, counts)
      modifies this
      ensures Valid()
      ensures State() == Emit(sch, mem, ElemSlots(sch, mem, f, ElemType(t), counts, ElemCount(t, counts), a, dataOffset - loc), loc, old(State()))
      decreases Unseen(addrList), MaxRank(sch, ElemSlots(sch, mem, f, ElemType(t), counts, ElemCount(t, counts), a, dataOffset - loc)), ByValueDepth(sch, ElemType(t)), 0, Height(t), 0
    {
      hide Emit, EmitSlot, TypeSlots, ElemSlots, MaxRank, TargetRank, SlotsIn, ValidSlots, ValidSlot, ValidType, ValidSchema, ValidFormat, Unseen, SameBut, SameOutside, FieldsReady, TypeReady, ByValueDepth, Height, Counts, Size, ElemSize, ElementsReady;
      ghost var rel := dataOffset - loc;
      ghost var s0 := State();
      ReadyCounts(sch, mem, tmpBuffer, f, dataOffset, a, ElemCount(t, counts) * ElemSize(sch, ElemType(t)), parentOffset, counts);
      var elements, next := Elements(f, parentOffset, t);
      ghost var slots := ElemSlots(sch, mem, f, next, counts, elements, a, rel);
      var elementSize := ElemSize(sch, next);
      StartElements(sch, mem, s0, f, next, elements, loc, dataOffset, a, parentOffset, counts);
      if IsFlat(sch, next) {
        FlatElemsNoSlots(sch, mem, f, next, counts, elements, a, rel);
        EmitNone(sch, mem, loc, s0);
        return;
      }
      var i := 0;
      ghost var done := 0;
      while i < elements
        invariant i <= elements && Valid()
        invariant done == i * elementSize
        invariant s0.addrs <= addrList
        invariant ElementsReady(sch, mem, State(), f, next, elements - i, loc, dataOffset + done, a + done, parentOffset, counts)
        invariant MaxRank(sch, ElemSlots(sch, mem, f, next, counts, elements - i, a + done, rel + done)) <= MaxRank(sch, slots)
        invariant Emit(sch, mem, slots, loc, s0)
               == Emit(sch, mem, ElemSlots(sch, mem, f, next, counts, elements - i, a + done, rel + done), loc, State())
      {
        ghost var s := State();
        FirstReady(sch, mem, s, f, next, elements - i, loc, dataOffset + done, a + done, parentOffset, counts);
        UnseenMonotone(s0.addrs, addrList);
        MulStep(i + 1, elementSize);
        HandleSubfield(f, dataOffset + i * elementSize, parentOffset, next, a + done, loc, counts);
        ElementDone(sch, mem, s, State(), f, next, elements - i, loc, dataOffset + done, a + done, parentOffset, counts);
        i := i + 1;
        done := done + elementSize;
      }
      NoElems(sch, mem, f, next, counts, a + done, rel + done);
      EmitNone(sch, mem, loc, State());
    }

    method SetupHeader(id: seq<byte>, variant: bool)
      requires Valid() && State() == EState(copyAll, 0, 0, [], [], [], [], junk)
      modifies this
      ensures Valid() && State() == AfterHeader(id, variant, copyAll, junk)
    {
      var headerSize := |id|;
      if variant {
        headerSize := headerSize + 8;
      }
      headerSize := headerSize + PadTo(8, headerSize);
      assert headerSize == HeaderSize(|id|, variant);
      hide HeaderSize, PadTo, ValidSchema;
      var at := AddToTmpBuffer(headerSize);
      tmpBuffer := Store(tmpBuffer, at, id);
      assert tmpBuffer[..|id|] == id;
      tmpBuffer := Store(tmpBuffer, at + |id|, Fill(headerSize - |id|, 0));
      assert tmpBuffer == Header(id, variant);
      iovec := iovec + [Tmp(at, headerSize)];
      outputLen := headerSize;
      savedOffsetDifference := headerSize;
    }

    /** Header and base record; with pointers to follow, the base is always copied. */
    method EncodeBase(f: nat, id: seq<byte>, root: nat) returns (baseOffset: nat)
      requires Valid() && f < |sch| && State() == EState(copyAll, 0, 0, [], [], [], [], junk)
      modifies this
      ensures Valid() && State() == AfterBase(sch, f, id, mem, root, copyAll, junk)
      ensures baseOffset == log[0].off
    {
      hide ValidSchema, EncodeSpec.AllocateTmpSpace, CopyToTmp, AddIovec;
      SetupHeader(id, sch[f].variant);
      if sch[f].variant || copyAll {
        var at;
        baseOffset, at := CopyDataToTmp(Load(mem, root, sch[f].recordLength), 1);
        log := [Block(root, baseOffset, sch[f].recordLength, false, Record(f), true, at)];
      } else {
        baseOffset := AddDataIovec(root, sch[f].recordLength, 1);
        log := [Block(root, baseOffset, sch[f].recordLength, false, Record(f), false, 0)];
      }
    }

    /** The state in which the dynamic part begins. */
    method EncodeStart(f: nat, id: seq<byte>, root: nat) returns (baseOffset: nat)
      requires Valid() && f < |sch| && sch[f].variant && State() == EState(copyAll, 0, 0, [], [], [], [], junk)
      modifies this
      ensures Valid() && State() == AfterStart(sch, f, id, mem, root, copyAll, junk)
      ensures baseOffset == HeaderSize(|id|, true)
    {
      hide ValidSchema, CopyToTmp, AfterBase, HeaderSize, Header, PadTo, CopyAt;
      baseOffset := EncodeBase(f, id, root);
      BaseShape(sch, f, id, mem, root, copyAll, junk);
      ghost var s1 := State();
      if sch[f].recursive {
        AddToAddrList(root, baseOffset);
        assert addrList == [Entry(root, baseOffset)];
      }
      assert State() == if sch[f].recursive then s1.(addrs := [Entry(root, s1.log[0].off)]) else s1;
      var _, _ := CopyDataToTmp([], 8);
    }

    /** Marshal the record at root: the common course of FFSencode and FFSencode_vector. */
    method EncodeRecord(f: nat, id: seq<byte>, root: nat)
      requires Valid() && f < |sch| && State() == EState(copyAll, 0, 0, [], [], [], [], junk)
      modifies this
      ensures Valid() && State() == Encode(sch, f, id, mem, root, copyAll, junk)
    {
      hide ValidSchema, Emit, FieldSlots, AfterBase, AfterStart, HeaderSize, Header, PadTo, CopyAt, ValidSlots;
      if !sch[f].variant {
        var _ := EncodeBase(f, id, root);
        return;
      }
      var baseOffset := EncodeStart(f, id, root);
      StartShape(sch, f, id, mem, root, copyAll, junk);
      HandleSubfields(f, baseOffset, root, baseOffset);
      tmpBuffer := Store(tmpBuffer, |id|, ToLE(outputLen - savedOffsetDifference, 8));
    }

    /** Lay out the caller's vector behind the data: three spare entries for file headers
        before it, a NULL entry after it, all inside the space reserved. */
    method FixupOutputVector() returns (vec: nat)
      modifies this`tmpBuffer
      ensures vec % 16 == 0
      ensures old(|tmpBuffer|) + 3 * 16 <= vec && vec + (|iovec| + 1) * 16 <= |tmpBuffer|
      ensures tmpBuffer[..old(|tmpBuffer|)] == old(tmpBuffer)
    {
      var size := (|iovec| + 5) * 16;
      var at := AddToTmpBuffer(size);
      at := at + 15;
      at := at - at % 16;
      vec := at + 3 * 16;
    }

    lemma MulAssoc(x: nat, y: nat, z: nat)
      ensures x * (y * z) == (x * y) * z
      ensures x * y >= 0
    {
    }
  }

  method FFSencode(sch: Schema, f: nat, id: seq<byte>, mem: seq<byte>, root: nat, junk: byte) returns (msg: seq<byte>, size: nat)
    requires ValidSchema(sch) && f < |sch|
    ensures msg == Encode(sch, f, id, mem, root, true, junk).buf
    ensures size == Encode(sch, f, id, mem, root, true, junk).outLen
  {
    var e := new Encoder(sch, mem, true, junk);
    e.EncodeRecord(f, id, root);
    msg, size := e.tmpBuffer, e.outputLen;
  }

  method FFSencodeVector(sch: Schema, f: nat, id: seq<byte>, mem: seq<byte>, root: nat, junk: byte) returns (vec: seq<Iov>, buf: seq<byte>)
    requires ValidSchema(sch) && f < |sch|
    ensures vec == Encode(sch, f, id, mem, root, false, junk).iov
    ensures Encode(sch, f, id, mem, root, false, junk).buf <= buf
  {
    var e := new Encoder(sch, mem, false, junk);
    e.EncodeRecord(f, id, root);
    var _ := e.FixupOutputVector();
    vec, buf := e.iovec, e.tmpBuffer;
  }
}
