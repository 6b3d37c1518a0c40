/** The decoder (ffs/ffs.c, ffs/ffs_conv.c) converting a message in place on a host with the
    sender's layout: offsets in pointer fields become addresses. */
module Decoder {
  import opened Bytes
  import opened Formats
  import opened ObjectGraph
  import opened EncodeSpec
  import opened EncodeFrame
  import opened EncodeReady
  import opened EncodeMeaning
  import opened DecodeSpec
  import opened DecodeFrame
  import opened ControlRange

  /** The decoder strides over array elements by the size of the field's base type, or by
      the pointer size when the field is a pointer to an array of pointers. */
  function ArrayOfPointers(t: Type): bool {
    t.Pointer? && (t.next.Pointer? || t.next.Array?) && t.next.next.Pointer?
  }

  predicate Strided(sch: Schema, t: Type, stride: nat) {
    match t
    case Pointer(n) => Strided(sch, n, stride)
    case Array(_, n) => (IsFlat(sch, n) || ElemSize(sch, ElemType(n)) == stride) && Strided(sch, n, stride)
    case _ => true
  }

  function Stride(fd: Field): nat {
    if ArrayOfPointers(fd.typ) then PointerSize else fd.size
  }

  predicate StridesOk(sch: Schema) {
    forall f, i :: 0 <= f < |sch| && 0 <= i < |sch[f].fields| ==> Strided(sch, sch[f].fields[i].typ, Stride(sch[f].fields[i]))
  }

  lemma {:induction false} StridedElem(sch: Schema, t: Type, stride: nat)
    requires Strided(sch, t, stride)
    ensures Strided(sch, ElemType(t), stride)
    ensures t.Array? ==> IsFlat(sch, ElemType(t)) || ElemSize(sch, ElemType(t)) == stride
  {
    if t.Array? {
      FlatElem(sch, t.next);
      StridedElem(sch, t.next, stride);
    }
  }

  lemma {:induction false} FlatElem(sch: Schema, t: Type)
    ensures IsFlat(sch, t) == IsFlat(sch, ElemType(t))
  {
    if t.Array? { FlatElem(sch, t.next); }
  }

  /** The value of control field j as the decoder reads it. */
  ghost predicate ControlIs(sch: Schema, f: nat, control: seq<nat>, counts: seq<nat>, j: nat)
    requires f < |sch|
  {
    && j < |control| && j < |counts| && j < |sch[f].fields| && sch[f].fields[j].typ.Simple?
    && control[j] == SignExtended(sch[f].fields[j].typ.size, counts[j])
  }

  ghost predicate ControlsRead(sch: Schema, f: nat, t: Type, control: seq<nat>, counts: seq<nat>)
    requires f < |sch|
  {
    forall j :: j in Named(t) ==> ControlIs(sch, f, control, counts, j)
  }

  /** The control values t names are those the encoder used. */
  ghost predicate ControlsFor(t: Type, control: seq<nat>, counts: seq<nat>) {
    forall j :: j in Named(t) ==> j < |control| && j < |counts| && control[j] == counts[j]
  }

  lemma ControlsAgree(sch: Schema, f: nat, t: Type, control: seq<nat>, counts: seq<nat>)
    requires f < |sch| && ControlsRead(sch, f, t, control, counts) && DimsFit(sch, f, t, counts)
    ensures ControlsFor(t, control, counts)
  {
    forall j | j in Named(t)
      ensures j < |control| && j < |counts| && control[j] == counts[j]
    {
      assert ControlIs(sch, f, control, counts, j);
    }
  }

  lemma AlreadyAligned(alignment: nat, base: nat, delta: nat, offset: nat)
    requires IsAlignment(alignment) && base % 8 == 0 && delta % 8 == 0 && offset % alignment == 0
    ensures PadTo(alignment, base + delta + offset) == 0
  {
  }

  class Decoder {
    const sch: Schema
    const msg: Message
    const stringOffsetSize: nat
    ghost const objs: seq<Block>

    var image: seq<byte>
    var curOffset: nat
    var destOffsetAdjust: int

    ghost function State(): DState
      reads this
    {
      DState(image, curOffset)
    }

    function PointerBase(): nat {
      msg.base + msg.delta + stringOffsetSize
    }

    ghost predicate Valid()
      reads this
    {
      && ValidSchema(sch) && StridesOk(sch) && Layout(sch, msg, objs)
      && (forall k :: 0 <= k < |objs| ==> TargetFits(sch, msg.m, objs[k].off, objs[k].target))
      && destOffsetAdjust == -(stringOffsetSize as int)
      && AheadUnread(msg, objs, State())
    }

    constructor (sch: Schema, msg: Message, recordLength: nat, ghost objs: seq<Block>)
      requires ValidSchema(sch) && StridesOk(sch) && Layout(sch, msg, objs)
      requires forall k :: 0 <= k < |objs| ==> TargetFits(sch, msg.m, objs[k].off, objs[k].target)
      ensures Valid() && this.sch == sch && this.msg == msg && this.objs == objs && State() == DState(msg.m, 0)
    {
      this.sch, this.msg, this.objs := sch, msg, objs;
      stringOffsetSize := recordLength + PadTo(8, recordLength);
      image, curOffset := msg.m, 0;
      destOffsetAdjust := -((recordLength + PadTo(8, recordLength)) as int);
    }

    /** Turn an offset into source and destination addresses, aligning the destination, and
        set the field. */
    method ConvertAddressField(offset: nat, fieldLoc: nat, alignment: nat) returns (newSrc: nat, newDest: nat)
      requires IsAlignment(alignment) && offset % alignment == 0
      requires msg.base % 8 == 0 && msg.delta % 8 == 0
      requires destOffsetAdjust == -(stringOffsetSize as int)
      modifies this`image, this`destOffsetAdjust
      ensures destOffsetAdjust == old(destOffsetAdjust)
      ensures newSrc == newDest == Relocated(msg, offset)
      ensures image == StorePtr(old(image), fieldLoc, newDest)
    {
      hide PadTo;
      newSrc, newDest := 0, 0;
      if offset != 0 {
        newSrc := PointerBase() + offset - stringOffsetSize;
        newDest := PointerBase() + offset + destOffsetAdjust;
        AlreadyAligned(alignment, msg.base, msg.delta, offset);
        var pad := PadTo(alignment, newDest);
        newDest := newDest + pad;
        destOffsetAdjust := destOffsetAdjust + pad;
      }
      image := StorePtr(image, fieldLoc, newDest);
    }

    /** Control values of the record at loc, for every field some dimension names. */
    method ControlValues(f: nat, loc: nat) returns (control: seq<nat>)
      requires f < |sch| && ValidSchema(sch)
      ensures forall i :: 0 <= i < |sch[f].fields| ==> ControlsRead(sch, f, sch[f].fields[i].typ, control, Counts(sch, f, image, loc))
    {
      hide ReadCount, SignExtended;
      ghost var counts := Counts(sch, f, image, loc);
      control := seq(|sch[f].fields|, _ => 0);
      var i := 0;
      while i < |sch[f].fields|
        invariant i <= |sch[f].fields| && |control| == |sch[f].fields|
        invariant forall k :: 0 <= k < i ==> ControlsRead(sch, f, sch[f].fields[k].typ, control, counts)
      {
        var t := sch[f].fields[i].typ;
        ghost var before := control;
        assert ValidFormat(sch, f);
        ByValueValid(sch, f, t);
        var next := t;
        var done := false;
        while !done
          invariant |control| == |sch[f].fields|
          invariant !done ==> ValidType(sch, f, next, false)
          invariant forall j :: 0 <= j < |control| ==> control[j] == before[j] || ControlIs(sch, f, control, counts, j)
          invariant forall j :: j in Named(t) ==> (!done && j in Named(next)) || ControlIs(sch, f, control, counts, j)
          decreases !done, next
        {
          match next {
            case Array(d, n) =>
              if d.Control? {
                var fd := sch[f].fields[d.field];
                control := control[d.field := SignExtended(fd.typ.size, ReadCount(image, loc + fd.offset, fd.typ.size))];
              }
              next := n;
            case Pointer(n) => next := n;
            case _ => done := true;
          }
        }
        i := i + 1;
      }
    }

    /** The element count and element type below all dimensions. */
    method Elements(f: nat, t: Type, control: seq<nat>, ghost counts: seq<nat>) returns (elements: nat, next: Type)
      requires f < |sch| && ValidType(sch, f, t, false)
      requires ControlsFor(t, control, counts)
      ensures next == ElemType(t) && elements == ElemCount(t, counts)
    {
      elements := 1;
      next := t;
      while next.Array?
        invariant ValidType(sch, f, next, false) && ElemType(next) == ElemType(t)
        invariant Named(next) <= Named(t)
        invariant elements * ElemCount(next, counts) == ElemCount(t, counts)
        decreases next
      {
        var n;
        match next.dim {
          case Static(k) => n := k;
          case Control(j) =>
            assert j in Named(t);
            n := control[j];
        }
        MulAssoc(elements, n, ElemCount(next.next, counts));
        elements := elements * n;
        next := next.next;
      }
    }

    lemma MulAssoc(x: nat, y: nat, z: nat)
      ensures x * (y * z) == (x * y) * z
      ensures x * y >= 0
    {
    }

    /** Convert the fields of the record at loc, inside the object at base. */
    method ConvertRecord(f: nat, loc: nat, ghost at: nat)
      requires Valid() && f < |sch| && at <= loc
      requires Ready(msg, objs, State(), loc, loc + sch[f].recordLength)
      requires AllPlaced(msg, objs, FieldSlots(sch, msg.m, f, 0, loc, loc - at)) && RecordFits(sch, msg.m, f, loc)
      modifies this
      ensures Valid()
      ensures State() == Conv(sch, msg, FieldSlots(sch, msg.m, f, 0, loc, loc - at), at, old(State()))
      decreases Remaining(curOffset), sch[f].level, 1, 0, 0
    {
      hide ValidSchema, StridesOk, Layout, TargetFits, Edge, TypeSlots, FieldSlots, Conv, ConvSlot, MaxRank, AllPlaced, Ready, AheadUnread, Counts, ControlsFor, ControlsRead, RecordFits, TypeFits, SlotsIn, ValidSlots, Size, Extent, Strided, ByValueDepth, ValidType, Height, Remaining;
      ghost var rel := loc - at;
      ghost var slots := FieldSlots(sch, msg.m, f, 0, loc, rel);
      ghost var d0 := State();
      var control := ControlValues(f, loc);
      ReadyCountsOf(f, loc);
      ghost var counts := Counts(sch, f, msg.m, loc);
      StartFields(f, loc);
      var i := 0;
      while i < |sch[f].fields|
        invariant i <= |sch[f].fields| && Valid() && d0.cur <= curOffset
        invariant AllPlaced(msg, objs, FieldSlots(sch, msg.m, f, i, loc, rel))
        invariant Ready(msg, objs, State(), loc + FieldStart(sch, f, i), loc + sch[f].recordLength)
        invariant Conv(sch, msg, slots, at, d0) == Conv(sch, msg, FieldSlots(sch, msg.m, f, i, loc, rel), at, State())
      {
        var fd := sch[f].fields[i];
        ghost var d := State();
        FieldUnfold(sch, msg.m, f, i, loc, rel);
        ghost var here := TypeSlots(sch, msg.m, f, fd.typ, counts, loc + fd.offset, rel + fd.offset);
        ghost var rest := FieldSlots(sch, msg.m, f, i + 1, loc, rel);
        FieldFacts(f, i, loc);
        ControlsAgree(sch, f, fd.typ, control, counts);
        PlacedParts(msg, objs, here, rest);
        RemainingMonotone(d0.cur, curOffset);
        if !IsFlat(sch, fd.typ) {
          ReadyPart(State(), loc + FieldStart(sch, f, i), loc + sch[f].recordLength, loc + fd.offset, loc + fd.offset + Extent(sch, fd));
          ConvertField(f, fd.typ, loc + fd.offset, Stride(fd), control, counts, at);
        } else {
          ConvNone(sch, msg, at, d);
        }
        ReadyStep(sch, msg, objs, here, at, d, loc + fd.offset, loc + fd.offset + Extent(sch, fd), loc + sch[f].recordLength, loc + FieldStart(sch, f, i + 1));
        ConvAppend(sch, msg, here, rest, at, d);
        i := i + 1;
      }
      NoFields(f, loc, rel);
      ConvNone(sch, msg, at, State());
    }

    /** Convert a value of type t at loc; `control` are the control values of its record. */
    method ConvertField(f: nat, t: Type, loc: nat, stride: nat, control: seq<nat>, ghost counts: seq<nat>, ghost at: nat)
      requires Valid() && f < |sch| && ValidType(sch, f, t, false) && at <= loc
      requires Strided(sch, t, stride) && ControlsFor(t, control, counts)
      requires Ready(msg, objs, State(), loc, loc + Size(sch, t, counts))
      requires AllPlaced(msg, objs, TypeSlots(sch, msg.m, f, t, counts, loc, loc - at)) && TypeFits(sch, msg.m, f, t, counts, loc)
      modifies this
      ensures Valid()
      ensures State() == Conv(sch, msg, TypeSlots(sch, msg.m, f, t, counts, loc, loc - at), at, old(State()))
      decreases Remaining(curOffset), ByValueDepth(sch, t), 0, Height(t), 1
    {
      hide ValidSchema, StridesOk, Layout, TargetFits, Edge, FieldSlots, ElemSlots, ConvSlot, AllPlaced, Ready, AheadUnread, ValidSlots, Remaining, LoadPtr;
      match t {
        case Simple(_) =>
        case Text =>
          ConvertPointer(f, true, t, loc, stride, control, counts, at);
        case Pointer(next) =>
          ConvertPointer(f, false, next, loc, stride, control, counts, at);
        case Array(_, _) =>
          ElemTypeValid(sch, f, t, false);
          ElemDepth(sch, t);
          ConvertArray(f, t, loc, stride, control, counts, at);
        case Subformat(g) =>
          ElemSizeIs(sch, t, counts);
          ConvertRecord(g, loc, at);
      }
    }

    /** The pointer at loc in the message: a string, or data of type next. */
    ghost function PointerSlot(f: nat, text: bool, next: Type, loc: nat, counts: seq<nat>, rel: nat): (s: Slot)
      requires f < |sch| && ValidType(sch, f, next, false)
      ensures ValidSlot(sch, s)
    {
      if text then Slot(rel, LoadPtr(msg.m, loc), false, CString)
      else Slot(rel, LoadPtr(msg.m, loc), sch[f].recursive, Aim(sch, f, next, counts))
    }

    method ConvertPointer(f: nat, text: bool, next: Type, loc: nat, stride: nat, control: seq<nat>, ghost counts: seq<nat>, ghost at: nat)
      requires Valid() && f < |sch| && ValidType(sch, f, next, false) && at <= loc
      requires !text ==> Strided(sch, next, stride) && ControlsFor(next, control, counts)
      requires Ready(msg, objs, State(), loc, loc + PointerSize)
      requires AllPlaced(msg, objs, [PointerSlot(f, text, next, loc, counts, loc - at)])
      modifies this
      ensures Valid()
      ensures State() == Conv(sch, msg, [PointerSlot(f, text, next, loc, counts, loc - at)], at, old(State()))
      decreases Remaining(curOffset), 0, 0, if text then 0 else Height(next) + 1, 0
    {
      hide ValidSchema, StridesOk, Layout, TargetFits, Edge, TypeSlots, Conv, AllPlaced, Ready, AheadUnread, ValidType, Remaining, Strided, LoadPtr, StorePtr, ControlsFor, Size, ValidSlot, Height, TypeFits, TargetSlots, Aim, ValidTarget;
      ghost var slot := PointerSlot(f, text, next, loc, counts, loc - at);
      ghost var d := State();
      SlotFacts(slot, loc, at, d);
      var offset := LoadPtr(image, loc);
      var newSrc, newDest := ConvertAddressField(offset, loc, if text then 1 else 8);
      if offset == 0 || text { return; }
      if offset <= curOffset { return; }
      curOffset := offset;
      ghost var k := Enter(sch, msg, objs, slot, at, d, State());
      TargetReady(k, f, next, counts, offset);
      RemainingDrops(d.cur, offset);
      ConvertField(f, next, newSrc - msg.base, stride, control, counts, newSrc - msg.base);
    }

    /** What reading one pointer of the message amounts to. */
    lemma SlotFacts(slot: Slot, loc: nat, at: nat, d: DState)
      requires ValidSchema(sch) && Layout(sch, msg, objs) && ValidSlot(sch, slot) && slot.rel + at == loc
      requires slot.ptr == LoadPtr(msg.m, loc)
      requires Ready(msg, objs, d, loc, loc + PointerSize) && AheadUnread(msg, objs, d)
      requires AllPlaced(msg, objs, [slot])
      ensures LoadPtr(d.buf, loc) == slot.ptr && Placed(msg, objs, slot)
      ensures !slot.target.CString? ==> slot.target.Data? && slot.ptr % 8 == 0
      ensures msg.base % 8 == 0 && msg.delta % 8 == 0
      ensures Conv(sch, msg, [slot], at, d) == ConvSlot(sch, msg, slot, at, d)
      ensures slot.ptr == 0 ==> StorePtr(d.buf, loc, 0) == d.buf
      ensures loc + 8 <= |d.buf|
      ensures slot.ptr == 0 || slot.target.CString? || slot.ptr <= d.cur ==>
        AheadUnread(msg, objs, DState(StorePtr(d.buf, loc, Relocated(msg, slot.ptr)), d.cur))
    {
      hide ValidSchema, Edge, ValidTarget;
      ReadyPtr(msg, objs, d, loc, loc + PointerSize, loc);
      assert [slot][0] == slot;
      ConvOne(sch, msg, slot, at, d);
      if !slot.target.CString? {
        PlacedAligned(sch, msg, objs, slot);
      }
      if slot.ptr == 0 {
        StoreSame(d.buf, loc);
      }
    }

    lemma StoreSame(b: seq<byte>, a: nat)
      requires a + 8 <= |b| && LoadPtr(b, a) == 0
      ensures StorePtr(b, a, 0) == b
    {
      ToFromLE(Load(b, a, 8));
      assert StorePtr(b, a, 0)[a..a + 8] == b[a..a + 8];
      assert StorePtr(b, a, 0) == b;
    }

    /** An entered object is laid out by the type its pointer says. */
    lemma TargetReady(k: nat, f: nat, next: Type, counts: seq<nat>, offset: nat)
      requires Valid() && f < |sch| && ValidType(sch, f, next, false)
      requires k < |objs| && objs[k].target == Aim(sch, f, next, counts) && objs[k].off == msg.delta + offset
      ensures TypeFits(sch, msg.m, f, next, counts, msg.delta + offset)
      ensures TargetSlots(sch, msg.m, msg.delta + offset, objs[k].target) == TypeSlots(sch, msg.m, f, next, counts, msg.delta + offset, 0)
      ensures Size(sch, objs[k].target.typ, []) == Size(sch, next, counts)
    {
      hide ValidSchema, StridesOk, Layout, AheadUnread, Edge, TypeFits, TypeSlots, Size;
      assert TargetFits(sch, msg.m, objs[k].off, objs[k].target);
      AimFits(sch, msg.m, f, next, counts, msg.delta + offset);
      AimIs(sch, msg.m, f, next, counts, msg.delta + offset);
    }

    method ConvertArray(f: nat, t: Type, loc: nat, stride: nat, control: seq<nat>, ghost counts: seq<nat>, ghost at: nat)
      requires Valid() && f < |sch| && ValidType(sch, f, t, false) && ValidType(sch, f, ElemType(t), false) && t.Array? && at <= loc
      requires Strided(sch, t, stride) && ControlsFor(t, control, counts)
      requires Ready(msg, objs, State(), loc, loc + ElemCount(t, counts) * ElemSize(sch, ElemType(t)))
      requires AllPlaced(msg, objs, ElemSlots(sch, msg.m, f, ElemType(t), counts, ElemCount(t, counts), loc, loc - at))
      requires ElemFits(sch, msg.m, f, ElemType(t), counts, ElemCount(t, counts), loc)
      modifies this
      ensures Valid()
      ensures State() == Conv(sch, msg, ElemSlots(sch, msg.m, f, ElemType(t), counts, ElemCount(t, counts), loc, loc - at), at, old(State()))
      decreases Remaining(curOffset), ByValueDepth(sch, ElemType(t)), 0, Height(t), 0
    {
      hide ValidSchema, StridesOk, Layout, TargetFits, Edge, TypeSlots, ElemSlots, Conv, AllPlaced, Ready, AheadUnread, ValidType, Remaining, Strided, ControlsFor, Size, Height, ByValueDepth, ElemSize, ElementsToGo, TypeFits, ElemFits;
      ghost var rel := loc - at;
      ghost var d0 := State();
      var elements, next := Elements(f, t, control, counts);
      ghost var slots := ElemSlots(sch, msg.m, f, next, counts, elements, loc, rel);
      StridedElem(sch, t, stride);
      ElemFacts(t, control, counts);
      if IsFlat(sch, next) {
        FlatElemsNoSlots(sch, msg.m, f, next, counts, elements, loc, rel);
        ConvNone(sch, msg, at, d0);
        return;
      }
      StartToGo(f, next, elements, loc, counts, at);
      var i := 0;
      var newSrc := loc;
      while i < elements
        invariant i <= elements && Valid() && d0.cur <= curOffset && loc <= newSrc
        invariant ElementsToGo(State(), f, next, elements - i, newSrc, counts, at)
        invariant Conv(sch, msg, slots, at, d0)
               == Conv(sch, msg, ElemSlots(sch, msg.m, f, next, counts, elements - i, newSrc, newSrc - at), at, State())
      {
        ghost var d := State();
        NextElement(d, f, next, elements - i, newSrc, counts, at);
        RemainingMonotone(d0.cur, curOffset);
        ConvertField(f, next, newSrc, stride, control, counts, at);
        ElementConverted(d, f, next, elements - i, newSrc, counts, at);
        newSrc := newSrc + stride;
        i := i + 1;
      }
      NoElems(sch, msg.m, f, next, counts, newSrc, newSrc - at);
      ConvNone(sch, msg, at, State());
    }

    /** n elements of type e at loc wait to be converted. */
    ghost predicate ElementsToGo(d: DState, f: nat, e: Type, n: nat, loc: nat, counts: seq<nat>, at: nat) {
      && ValidSchema(sch) && Layout(sch, msg, objs) && f < |sch| && ValidType(sch, f, e, false) && !e.Array? && at <= loc
      && Ready(msg, objs, d, loc, loc + n * ElemSize(sch, e)) && AheadUnread(msg, objs, d)
      && AllPlaced(msg, objs, ElemSlots(sch, msg.m, f, e, counts, n, loc, loc - at)) && ElemFits(sch, msg.m, f, e, counts, n, loc)
    }

    lemma StartToGo(f: nat, e: Type, n: nat, loc: nat, counts: seq<nat>, at: nat)
      requires Valid() && f < |sch| && ValidType(sch, f, e, false) && !e.Array? && at <= loc
      requires Ready(msg, objs, State(), loc, loc + n * ElemSize(sch, e))
      requires AllPlaced(msg, objs, ElemSlots(sch, msg.m, f, e, counts, n, loc, loc - at)) && ElemFits(sch, msg.m, f, e, counts, n, loc)
      ensures ElementsToGo(State(), f, e, n, loc, counts, at)
    {
      hide ValidSchema, StridesOk, Layout, TargetFits, Ready, AheadUnread, AllPlaced, ElemSlots, ValidType, ElemSize;
    }

    lemma NextElement(d: DState, f: nat, e: Type, n: nat, loc: nat, counts: seq<nat>, at: nat)
      requires n > 0 && ElementsToGo(d, f, e, n, loc, counts, at)
      ensures f < |sch| && !e.Array? && ValidSchema(sch) && ValidType(sch, f, e, false) && at <= loc
      ensures Ready(msg, objs, d, loc, loc + Size(sch, e, counts))
      ensures AllPlaced(msg, objs, TypeSlots(sch, msg.m, f, e, counts, loc, loc - at)) && TypeFits(sch, msg.m, f, e, counts, loc)
    {
      hide ValidSchema, Layout, Ready, AheadUnread, AllPlaced, ElemSlots, TypeSlots, ValidType, ElemSize, Size, MaxRank, SlotsIn;
      var z := ElemSize(sch, e);
      ElemUnfold(sch, msg.m, f, e, counts, n, loc, loc - at);
      assert (n - 1) * z >= 0;
      ReadyPart(d, loc, loc + n * z, loc, loc + z);
      PlacedParts(msg, objs, TypeSlots(sch, msg.m, f, e, counts, loc, loc - at), ElemSlots(sch, msg.m, f, e, counts, n - 1, loc + z, loc - at + z));
    }

    lemma ElementConverted(d: DState, f: nat, e: Type, n: nat, loc: nat, counts: seq<nat>, at: nat)
      requires n > 0 && ElementsToGo(d, f, e, n, loc, counts, at)
      ensures var z := ElemSize(sch, e);
        var r := Conv(sch, msg, TypeSlots(sch, msg.m, f, e, counts, loc, loc - at), at, d);
        && ElementsToGo(r, f, e, n - 1, loc + z, counts, at)
        && Conv(sch, msg, ElemSlots(sch, msg.m, f, e, counts, n, loc, loc - at), at, d)
           == Conv(sch, msg, ElemSlots(sch, msg.m, f, e, counts, n - 1, loc + z, loc + z - at), at, r)
    {
      hide ValidSchema, Layout, Ready, AheadUnread, AllPlaced, ElemSlots, TypeSlots, ValidType, ElemSize, Size, MaxRank, SlotsIn, Conv;
      var z := ElemSize(sch, e);
      var here := TypeSlots(sch, msg.m, f, e, counts, loc, loc - at);
      var rest := ElemSlots(sch, msg.m, f, e, counts, n - 1, loc + z, loc - at + z);
      ElemUnfold(sch, msg.m, f, e, counts, n, loc, loc - at);
      assert (n - 1) * z >= 0;
      PlacedParts(msg, objs, here, rest);
      ReadyStep(sch, msg, objs, here, at, d, loc, loc + z, loc + n * z, loc + z);
      ConvAppend(sch, msg, here, rest, at, d);
    }

    lemma {:induction false} ElemFacts(t: Type, control: seq<nat>, counts: seq<nat>)
      requires ControlsFor(t, control, counts)
      ensures ControlsFor(ElemType(t), control, counts)
    {
      if t.Array? {
        assert Named(t.next) <= Named(t);
        ElemFacts(t.next, control, counts);
      }
    }

    lemma NoFields(f: nat, loc: nat, rel: nat)
      requires ValidSchema(sch) && f < |sch|
      ensures FieldSlots(sch, msg.m, f, |sch[f].fields|, loc, rel) == []
    {
    }

    lemma RemainingMonotone(x: nat, y: nat)
      requires x <= y
      ensures Remaining(y) <= Remaining(x)
    {
    }

    lemma RemainingDrops(x: nat, y: nat)
      requires x < y < POW64
      ensures Remaining(y) < Remaining(x)
    {
    }

    lemma ReadyPart(d: DState, lo: nat, hi: nat, lo1: nat, hi1: nat)
      requires Ready(msg, objs, d, lo, hi) && lo <= lo1 && hi1 <= hi
      ensures Ready(msg, objs, d, lo1, hi1)
    {
      hide Edge;
    }

    lemma StartFields(f: nat, loc: nat)
      requires f < |sch| && ValidSchema(sch) && Ready(msg, objs, State(), loc, loc + sch[f].recordLength)
      ensures Ready(msg, objs, State(), loc + FieldStart(sch, f, 0), loc + sch[f].recordLength)
    {
      hide Edge;
    }

    lemma ReadyCountsOf(f: nat, loc: nat)
      requires f < |sch| && ValidSchema(sch) && Ready(msg, objs, State(), loc, loc + sch[f].recordLength)
      ensures Counts(sch, f, image, loc) == Counts(sch, f, msg.m, loc)
    {
      hide Edge;
      assert ValidFormat(sch, f);
      forall j | 0 <= j < |sch[f].fields| && sch[f].fields[j].typ.Simple?
        ensures Load(image, loc + sch[f].fields[j].offset, sch[f].fields[j].typ.size) == Load(msg.m, loc + sch[f].fields[j].offset, sch[f].fields[j].typ.size)
      {
        var fd := sch[f].fields[j];
        SimpleExtent(sch, fd);
        assert image[loc + fd.offset..loc + fd.offset + fd.typ.size] == msg.m[loc + fd.offset..loc + fd.offset + fd.typ.size];
      }
    }

    lemma FieldFacts(f: nat, i: nat, loc: nat)
      requires ValidSchema(sch) && StridesOk(sch) && f < |sch| && i < |sch[f].fields| && RecordFits(sch, msg.m, f, loc)
      ensures var fd := sch[f].fields[i]; var counts := Counts(sch, f, msg.m, loc);
        && ValidType(sch, f, fd.typ, false)
        && Strided(sch, fd.typ, Stride(fd)) && DimsFit(sch, f, fd.typ, counts) && TypeFits(sch, msg.m, f, fd.typ, counts, loc + fd.offset)
        && FieldStart(sch, f, i) <= fd.offset && fd.offset + Extent(sch, fd) <= FieldStart(sch, f, i + 1) <= sch[f].recordLength
    {
      hide TypeFits, DimsFit;
      assert ValidFormat(sch, f);
      assert FieldFits(sch, msg.m, f, i, loc);
      ByValueValid(sch, f, sch[f].fields[i].typ);
      FieldSize(sch, f, i, Counts(sch, f, msg.m, loc));
      FieldStartBound(sch, f, i + 1);
    }
  }

  /** FFSdecode_in_place on a message with the host's own layout. */
  method FFSdecodeInPlace(sch: Schema, f: nat, msg: Message, ghost objs: seq<Block>) returns (image: seq<byte>)
    requires ValidSchema(sch) && StridesOk(sch) && f < |sch| && Layout(sch, msg, objs)
    requires forall k :: 0 <= k < |objs| ==> TargetFits(sch, msg.m, objs[k].off, objs[k].target)
    requires |objs| > 0 && objs[0].off == msg.delta && objs[0].size == sch[f].recordLength && objs[0].target == Record(f)
    ensures image == Conv(sch, msg, TargetSlots(sch, msg.m, msg.delta, Record(f)), msg.delta, DState(msg.m, 0)).buf
  {
    var d := new Decoder(sch, msg, sch[f].recordLength, objs);
    RootReady(sch, f, msg, objs, d.State());
    d.ConvertRecord(f, msg.delta, msg.delta);
    image := d.image;
  }

  lemma RootReady(sch: Schema, f: nat, msg: Message, objs: seq<Block>, d: DState)
    requires ValidSchema(sch) && f < |sch| && Layout(sch, msg, objs) && d == DState(msg.m, 0)
    requires |objs| > 0 && objs[0].off == msg.delta && objs[0].size == sch[f].recordLength && objs[0].target == Record(f)
    ensures Ready(msg, objs, d, msg.delta, msg.delta + sch[f].recordLength)
    ensures AllPlaced(msg, objs, FieldSlots(sch, msg.m, f, 0, msg.delta, 0))
  {
    hide ValidSchema, FieldSlots, AllPlaced;
    forall j | 0 <= j < |objs|
      ensures objs[j].off + objs[j].size <= |msg.m|
    {
      assert ObjectLaid(sch, msg, objs, j);
    }
    FrontierBounds(sch, msg, objs, msg.delta);
    assert ObjectLaid(sch, msg, objs, 0);
  }
}
