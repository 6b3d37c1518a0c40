/** What decoding in place does, said over the object graph of the message itself: each
    pointer slot holds an offset, which becomes an address; an object is entered when its
    offset lies beyond every offset entered so far. */
module DecodeSpec {
  import opened Bytes
  import opened Formats
  import opened ObjectGraph
  import opened EncodeSpec
  import opened EncodeFrame
  import opened EncodeMeaning
  import opened EncodeReady

  /** A message being decoded in place: its bytes and cur_offset. */
  datatype DState = DState(buf: seq<byte>, cur: nat)

  /** The message m, loaded at address base, with data starting at delta. */
  datatype Message = Message(m: seq<byte>, delta: nat, base: nat)

  function Address(msg: Message, offset: nat): nat {
    msg.base + msg.delta + offset
  }

  /** NULL stays NULL. */
  function Relocated(msg: Message, offset: nat): nat {
    if offset == 0 then 0 else Address(msg, offset)
  }

  function Remaining(cur: nat): nat {
    if cur < POW64 then POW64 - cur else 0
  }

  function ConvSlot(sch: Schema, msg: Message, slot: Slot, loc: nat, d: DState): (r: DState)
    requires ValidSchema(sch) && ValidSlot(sch, slot)
    ensures |r.buf| == |d.buf| && d.cur <= r.cur
    decreases Remaining(d.cur), 0
  {
    if slot.ptr == 0 then d
    else
      var d1 := d.(buf := StorePtr(d.buf, loc + slot.rel, Address(msg, slot.ptr)));
      if slot.target.CString? || slot.ptr <= d.cur then d1
      else
        Conv(sch, msg, TargetSlots(sch, msg.m, msg.delta + slot.ptr, slot.target), msg.delta + slot.ptr, d1.(cur := slot.ptr))
  }

  /** Convert everything reachable from the slots of the object at loc. Offsets entered
      increase, so this ends on every message, well formed or not. */
  function Conv(sch: Schema, msg: Message, slots: seq<Slot>, loc: nat, d: DState): (r: DState)
    requires ValidSchema(sch) && ValidSlots(sch, slots)
    ensures |r.buf| == |d.buf| && d.cur <= r.cur
    decreases Remaining(d.cur), |slots| + 1
  {
    if slots == [] then d
    else Conv(sch, msg, slots[1..], loc, ConvSlot(sch, msg, slots[0], loc, d))
  }

  lemma {:induction false} ConvAppend(sch: Schema, msg: Message, x: seq<Slot>, y: seq<Slot>, loc: nat, d: DState)
    requires ValidSchema(sch) && ValidSlots(sch, x) && ValidSlots(sch, y)
    ensures Conv(sch, msg, x + y, loc, d) == Conv(sch, msg, y, loc, Conv(sch, msg, x, loc, d))
    decreases |x|
  {
    if x == [] {
      assert x + y == y;
    } else {
      assert (x + y)[1..] == x[1..] + y;
      ConvAppend(sch, msg, x[1..], y, loc, ConvSlot(sch, msg, x[0], loc, d));
    }
  }

  lemma ConvNone(sch: Schema, msg: Message, loc: nat, d: DState)
    requires ValidSchema(sch)
    ensures Conv(sch, msg, [], loc, d) == d
  {
  }

  lemma ConvOne(sch: Schema, msg: Message, x: Slot, loc: nat, d: DState)
    requires ValidSchema(sch) && ValidSlot(sch, x)
    ensures Conv(sch, msg, [x], loc, d) == ConvSlot(sch, msg, x, loc, d)
  {
    assert [x][1..] == [];
  }

  // ----- slots of an object and of its image in the message have one shape

  ghost predicate SameShape(x: seq<Slot>, y: seq<Slot>) {
    && |x| == |y|
    && forall i :: 0 <= i < |x| ==> x[i].rel == y[i].rel && x[i].tracked == y[i].tracked && x[i].target == y[i].target
  }

  function At(mem: seq<byte>, a: nat): byte {
    if a < |mem| then mem[a] else 0
  }

  /** The object at l in the message is the one at a in memory, between lo and hi and
      outside the slots. */
  ghost predicate KeptOutside(m: seq<byte>, l: nat, mem: seq<byte>, a: nat, lo: nat, hi: nat, slots: seq<Slot>) {
    && l + hi <= |m|
    && forall q :: lo <= q < hi && OutsideSlots(slots, 0, q) ==> m[l + q] == At(mem, a + q)
  }

  lemma ShapeConcat(x1: seq<Slot>, y1: seq<Slot>, x2: seq<Slot>, y2: seq<Slot>)
    requires SameShape(x1, y1) && SameShape(x2, y2)
    ensures SameShape(x1 + x2, y1 + y2)
  {
  }

  /** Slots elsewhere in the object do not matter to part of it. */
  lemma KeptParts(sch: Schema, m: seq<byte>, l: nat, mem: seq<byte>, a: nat, lo: nat, x: seq<Slot>, m1: nat, m2: nat, y: seq<Slot>, hi: nat)
    requires KeptOutside(m, l, mem, a, lo, hi, x + y) && lo <= m1 <= m2 <= hi
    requires SlotsIn(sch, x, lo, m1) && SlotsIn(sch, y, m2, hi)
    ensures KeptOutside(m, l, mem, a, lo, m1, x)
    ensures KeptOutside(m, l, mem, a, m2, hi, y)
  {
    forall q | lo <= q < m1 && OutsideSlots(x, 0, q)
      ensures m[l + q] == At(mem, a + q)
    {
      assert OutsideSlots(x + y, 0, q);
    }
    forall q | m2 <= q < hi && OutsideSlots(y, 0, q)
      ensures m[l + q] == At(mem, a + q)
    {
      if lo <= q { assert OutsideSlots(x + y, 0, q); }
    }
  }

  lemma {:induction false} SimpleFieldOutside(sch: Schema, mem: seq<byte>, f: nat, i: nat, j: nat, a: nat, rel: nat, q: nat)
    requires ValidSchema(sch) && f < |sch| && i <= j < |sch[f].fields| && sch[f].fields[j].typ.Simple?
    requires rel + sch[f].fields[j].offset <= q < rel + sch[f].fields[j].offset + sch[f].fields[j].typ.size
    ensures OutsideSlots(FieldSlots(sch, mem, f, i, a, rel), 0, q)
    decreases j - i
  {
    hide ValidSchema, TypeSlots, ValidSlots, ValidSlot, MaxRank, Counts;
    var fd := sch[f].fields[i];
    FieldUnfold(sch, mem, f, i, a, rel);
    var here := TypeSlots(sch, mem, f, fd.typ, Counts(sch, f, mem, a), a + fd.offset, rel + fd.offset);
    var rest := FieldSlots(sch, mem, f, i + 1, a, rel);
    SimpleExtent(sch, sch[f].fields[j]);
    if i == j {
      FieldSlotsIn(sch, mem, f, i + 1, a, rel);
      FieldSize(sch, f, i, []);
    } else {
      SimpleFieldOutside(sch, mem, f, i + 1, j, a, rel, q);
      FieldsApart(sch, f, i, j);
    }
    assert FieldSlots(sch, mem, f, i, a, rel) == here + rest;
  }

  lemma FieldsApart(sch: Schema, f: nat, i: nat, j: nat)
    requires ValidSchema(sch) && f < |sch| && i < j < |sch[f].fields|
    ensures sch[f].fields[i].offset + Extent(sch, sch[f].fields[i]) <= sch[f].fields[j].offset
  {
    assert ValidFormat(sch, f);
  }

  /** Control fields survive encoding. */
  lemma CountsCorrespond(sch: Schema, m: seq<byte>, l: nat, mem: seq<byte>, a: nat, f: nat, rel: nat)
    requires ValidSchema(sch) && f < |sch|
    requires KeptOutside(m, l, mem, a, rel, rel + sch[f].recordLength, FieldSlots(sch, mem, f, 0, a + rel, rel))
    ensures Counts(sch, f, m, l + rel) == Counts(sch, f, mem, a + rel)
  {
    hide FieldSlots, Extent;
    forall j | 0 <= j < |sch[f].fields| && sch[f].fields[j].typ.Simple?
      ensures Load(m, l + rel + sch[f].fields[j].offset, sch[f].fields[j].typ.size)
           == Load(mem, a + rel + sch[f].fields[j].offset, sch[f].fields[j].typ.size)
    {
      SimpleFieldKept(sch, m, l, mem, a, f, rel, j);
    }
  }

  lemma SimpleFieldKept(sch: Schema, m: seq<byte>, l: nat, mem: seq<byte>, a: nat, f: nat, rel: nat, j: nat)
    requires ValidSchema(sch) && f < |sch| && j < |sch[f].fields| && sch[f].fields[j].typ.Simple?
    requires KeptOutside(m, l, mem, a, rel, rel + sch[f].recordLength, FieldSlots(sch, mem, f, 0, a + rel, rel))
    ensures Load(m, l + rel + sch[f].fields[j].offset, sch[f].fields[j].typ.size)
         == Load(mem, a + rel + sch[f].fields[j].offset, sch[f].fields[j].typ.size)
  {
    hide FieldSlots, OutsideSlots;
    var fd := sch[f].fields[j];
    assert ValidFormat(sch, f);
    SimpleExtent(sch, fd);
    var x := Load(m, l + rel + fd.offset, fd.typ.size);
    var y := Load(mem, a + rel + fd.offset, fd.typ.size);
    forall i | 0 <= i < fd.typ.size
      ensures x[i] == y[i]
    {
      var q := rel + fd.offset + i;
      SimpleFieldOutside(sch, mem, f, 0, j, a + rel, rel, q);
      assert m[l + q] == At(mem, a + q);
    }
  }

  /** The image of an object in the message has pointers in the same places, leading to
      targets of the same type and extent. */
  lemma {:induction false} TypeShape(sch: Schema, m: seq<byte>, l: nat, mem: seq<byte>, a: nat, f: nat, t: Type, counts: seq<nat>, rel: nat)
    requires ValidSchema(sch) && f < |sch| && ValidType(sch, f, t, false)
    requires KeptOutside(m, l, mem, a, rel, rel + Size(sch, t, counts), TypeSlots(sch, mem, f, t, counts, a + rel, rel))
    ensures SameShape(TypeSlots(sch, m, f, t, counts, l + rel, rel), TypeSlots(sch, mem, f, t, counts, a + rel, rel))
    decreases ByValueDepth(sch, t), 0, Height(t), 0
  {
    hide ValidSchema, ValidSlots, LoadPtr, KeptOutside;
    match t
    case Array(_, _) =>
      ElemTypeValid(sch, f, t, false);
      ElemDepth(sch, t);
      ElemShape(sch, m, l, mem, a, f, ElemType(t), counts, ElemCount(t, counts), rel);
    case Subformat(g) =>
      ElemSizeIs(sch, t, counts);
      FieldsShape(sch, m, l, mem, a, g, rel);
    case _ =>
  }

  lemma {:induction false} ElemShape(sch: Schema, m: seq<byte>, l: nat, mem: seq<byte>, a: nat, f: nat, e: Type, counts: seq<nat>, n: nat, rel: nat)
    requires ValidSchema(sch) && f < |sch| && ValidType(sch, f, e, false) && !e.Array?
    requires KeptOutside(m, l, mem, a, rel, rel + n * ElemSize(sch, e), ElemSlots(sch, mem, f, e, counts, n, a + rel, rel))
    ensures SameShape(ElemSlots(sch, m, f, e, counts, n, l + rel, rel), ElemSlots(sch, mem, f, e, counts, n, a + rel, rel))
    decreases ByValueDepth(sch, e), 0, Height(e), n + 1
  {
    hide ValidSchema, ValidSlots, LoadPtr, KeptOutside, TypeSlots, SlotsIn, MaxRank, Size;
    if n > 0 {
      var z := ElemSize(sch, e);
      ElemUnfold(sch, mem, f, e, counts, n, a + rel, rel);
      var x := TypeSlots(sch, mem, f, e, counts, a + rel, rel);
      var y := ElemSlots(sch, mem, f, e, counts, n - 1, a + rel + z, rel + z);
      ElemSlotsIn(sch, mem, f, e, counts, n - 1, a + rel + z, rel + z);
      KeptParts(sch, m, l, mem, a, rel, x, rel + z, rel + z, y, rel + n * z);
      TypeShape(sch, m, l, mem, a, f, e, counts, rel);
      ElemShape(sch, m, l, mem, a, f, e, counts, n - 1, rel + z);
      ShapeConcat(TypeSlots(sch, m, f, e, counts, l + rel, rel), x, ElemSlots(sch, m, f, e, counts, n - 1, l + rel + z, rel + z), y);
    }
  }

  lemma FieldsShape(sch: Schema, m: seq<byte>, l: nat, mem: seq<byte>, a: nat, f: nat, rel: nat)
    requires ValidSchema(sch) && f < |sch|
    requires KeptOutside(m, l, mem, a, rel, rel + sch[f].recordLength, FieldSlots(sch, mem, f, 0, a + rel, rel))
    ensures SameShape(FieldSlots(sch, m, f, 0, l + rel, rel), FieldSlots(sch, mem, f, 0, a + rel, rel))
    decreases sch[f].level, 2, 0, 0
  {
    hide FieldSlots, ValidSchema;
    CountsCorrespond(sch, m, l, mem, a, f, rel);
    FieldStartKept(sch, m, l, mem, a, f, rel);
    FieldShape(sch, m, l, mem, a, f, 0, rel);
  }

  lemma FieldStartKept(sch: Schema, m: seq<byte>, l: nat, mem: seq<byte>, a: nat, f: nat, rel: nat)
    requires f < |sch| && ValidSchema(sch)
    requires KeptOutside(m, l, mem, a, rel, rel + sch[f].recordLength, FieldSlots(sch, mem, f, 0, a + rel, rel))
    ensures KeptOutside(m, l, mem, a, rel + FieldStart(sch, f, 0), rel + sch[f].recordLength, FieldSlots(sch, mem, f, 0, a + rel, rel))
  {
    hide FieldSlots, OutsideSlots;
  }

  lemma {:induction false} FieldShape(sch: Schema, m: seq<byte>, l: nat, mem: seq<byte>, a: nat, f: nat, i: nat, rel: nat)
    requires ValidSchema(sch) && f < |sch| && i <= |sch[f].fields|
    requires Counts(sch, f, m, l + rel) == Counts(sch, f, mem, a + rel)
    requires KeptOutside(m, l, mem, a, rel + FieldStart(sch, f, i), rel + sch[f].recordLength, FieldSlots(sch, mem, f, i, a + rel, rel))
    ensures SameShape(FieldSlots(sch, m, f, i, l + rel, rel), FieldSlots(sch, mem, f, i, a + rel, rel))
    decreases sch[f].level, 1, |sch[f].fields| - i, 0
  {
    hide ValidSchema, ValidSlots, LoadPtr, KeptOutside, TypeSlots, SlotsIn, MaxRank, Size, Counts, Extent;
    if i < |sch[f].fields| {
      var fd := sch[f].fields[i];
      var counts := Counts(sch, f, mem, a + rel);
      FieldUnfold(sch, mem, f, i, a + rel, rel);
      FieldUnfold(sch, m, f, i, l + rel, rel);
      var x := TypeSlots(sch, mem, f, fd.typ, counts, a + rel + fd.offset, rel + fd.offset);
      var y := FieldSlots(sch, mem, f, i + 1, a + rel, rel);
      FieldSlotsIn(sch, mem, f, i + 1, a + rel, rel);
      FieldSize(sch, f, i, counts);
      FieldStartBound(sch, f, i + 1);
      KeptParts(sch, m, l, mem, a, rel + fd.offset, x, rel + fd.offset + Extent(sch, fd), rel + FieldStart(sch, f, i + 1), y, rel + sch[f].recordLength);
      TypeShape(sch, m, l, mem, a, f, fd.typ, counts, rel + fd.offset);
      FieldShape(sch, m, l, mem, a, f, i + 1, rel);
      ShapeConcat(TypeSlots(sch, m, f, fd.typ, counts, l + rel + fd.offset, rel + fd.offset), x, FieldSlots(sch, m, f, i + 1, l + rel, rel), y);
    }
  }

  lemma FieldStartBound(sch: Schema, f: nat, i: nat)
    requires ValidSchema(sch) && f < |sch| && i <= |sch[f].fields|
    ensures FieldStart(sch, f, i) <= sch[f].recordLength
  {
    if i < |sch[f].fields| { assert ValidFormat(sch, f); }
  }

  lemma TargetShape(sch: Schema, m: seq<byte>, l: nat, mem: seq<byte>, a: nat, t: Target)
    requires ValidSchema(sch) && ValidTarget(sch, t)
    requires KeptOutside(m, l, mem, a, 0, TargetSize(sch, mem, a, t), TargetSlots(sch, mem, a, t))
    ensures SameShape(TargetSlots(sch, m, l, t), TargetSlots(sch, mem, a, t))
  {
    hide TypeSlots, FieldSlots, Size, ValidSchema, ValidType;
    match t
    case CString =>
    case Data(f, ty) => TypeShape(sch, m, l, mem, a, f, ty, [], 0);
    case Record(f) => FieldsShape(sch, m, l, mem, a, f, 0);
  }
}
