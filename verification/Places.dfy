/** Where in a value strings and pointers lie, said of the types alone, and what becomes of them:
    every such place of every object is set in the message and in the decoded image, and nothing
    else is changed. */
module Places {
  import opened Bytes
  import opened Formats
  import opened ObjectGraph
  import opened EncodeSpec
  import opened EncodeFrame
  import opened EncodeReady
  import opened EncodeMeaning
  import opened DecodeSpec
  import opened RoundTrip

  // ----- places

  /** In a value of type t at address a, in a record of format f with these control values, there
      is a string or pointer at offset off, and it leads to a target. */
  ghost predicate At(sch: Schema, mem: seq<byte>, f: nat, t: Type, counts: seq<nat>, a: nat, off: int, to: Target)
    requires ValidSchema(sch) && f < |sch| && ValidType(sch, f, t, false)
    decreases ByValueDepth(sch, t), 0, Height(t), 0
  {
    match t
    case Simple(_) => false
    case Text => off == 0 && to == CString
    case Pointer(n) => off == 0 && to == Aim(sch, f, n, counts)
    case Array(d, n) => exists k: nat :: k < DimSize(d, counts) && Nth(sch, mem, f, n, counts, a, off, to, k)
    case Subformat(g) => RecordAt(sch, mem, g, a, off, to)
  }

  /** The same for element k of an array whose elements have type t. */
  ghost predicate Nth(sch: Schema, mem: seq<byte>, f: nat, t: Type, counts: seq<nat>, a: nat, off: int, to: Target, k: nat)
    requires ValidSchema(sch) && f < |sch| && ValidType(sch, f, t, false)
    decreases ByValueDepth(sch, t), 0, Height(t), 1
  {
    At(sch, mem, f, t, counts, a + k * Size(sch, t, counts), off - k * Size(sch, t, counts), to)
  }

  /** The same for a record: in one of its fields, under the record's own control values. */
  ghost predicate RecordAt(sch: Schema, mem: seq<byte>, f: nat, a: nat, off: int, to: Target)
    requires ValidSchema(sch) && f < |sch|
    decreases sch[f].level, 2, 0, 0
  {
    exists i: nat :: i < |sch[f].fields| && FieldAt(sch, mem, f, i, a, off, to)
  }

  ghost predicate FieldAt(sch: Schema, mem: seq<byte>, f: nat, i: nat, a: nat, off: int, to: Target)
    requires ValidSchema(sch) && f < |sch| && i < |sch[f].fields|
    decreases sch[f].level, 1, 0, 0
  {
    var fd := sch[f].fields[i];
    assert ValidFormat(sch, f);
    ByValueValid(sch, f, fd.typ);
    ByValueDepthOk(sch, f, fd.typ);
    At(sch, mem, f, fd.typ, Counts(sch, f, mem, a), a + fd.offset, off - fd.offset, to)
  }

  ghost predicate ObjectAt(sch: Schema, mem: seq<byte>, t: Target, p: nat, off: int, to: Target)
    requires ValidSchema(sch) && ValidTarget(sch, t)
  {
    match t
    case CString => false
    case Data(f, ty) => At(sch, mem, f, ty, [], p, off, to)
    case Record(f) => RecordAt(sch, mem, f, p, off, to)
  }

  // ----- the slots are the places

  /** One of the slots is at this offset, holds the pointer that is there, and leads there. */
  ghost predicate Listed(mem: seq<byte>, s: seq<Slot>, a: nat, rel: nat, off: int, to: Target) {
    exists i :: 0 <= i < |s| && IsSlot(mem, s[i], a, rel, off, to)
  }

  predicate IsSlot(mem: seq<byte>, s: Slot, a: nat, rel: nat, off: int, to: Target) {
    off >= 0 && s.rel == rel + off && s.ptr == LoadPtr(mem, a + off) && s.target == to
  }

  lemma ListedBoth(mem: seq<byte>, x: seq<Slot>, y: seq<Slot>, a: nat, rel: nat, off: int, to: Target)
    ensures Listed(mem, x + y, a, rel, off, to) <==> Listed(mem, x, a, rel, off, to) || Listed(mem, y, a, rel, off, to)
  {
    hide IsSlot;
    var s := x + y;
    assert forall i :: 0 <= i < |x| ==> s[i] == x[i];
    assert forall i :: 0 <= i < |y| ==> s[|x| + i] == y[i];
    if Listed(mem, s, a, rel, off, to) {
      var i :| 0 <= i < |s| && IsSlot(mem, s[i], a, rel, off, to);
      if i >= |x| { assert y[i - |x|] == s[i]; }
    }
  }

  /** Slots of a part lie not before it. */
  lemma ListedShift(mem: seq<byte>, s: seq<Slot>, a: nat, rel: nat, off: int, to: Target, k: nat)
    requires forall i :: 0 <= i < |s| ==> s[i].rel >= rel + k
    ensures Listed(mem, s, a, rel, off, to) <==> Listed(mem, s, a + k, rel + k, off - k, to)
  {
    if Listed(mem, s, a, rel, off, to) {
      var i :| 0 <= i < |s| && IsSlot(mem, s[i], a, rel, off, to);
      assert IsSlot(mem, s[i], a + k, rel + k, off - k, to);
    }
    if Listed(mem, s, a + k, rel + k, off - k, to) {
      var i :| 0 <= i < |s| && IsSlot(mem, s[i], a + k, rel + k, off - k, to);
      assert IsSlot(mem, s[i], a, rel, off, to);
    }
  }

  /** Elements one after the other. */
  ghost predicate ElemAt(sch: Schema, mem: seq<byte>, f: nat, e: Type, counts: seq<nat>, n: nat, a: nat, off: int, to: Target)
    requires ValidSchema(sch) && f < |sch| && ValidType(sch, f, e, false)
  {
    exists k: nat :: k < n && Nth(sch, mem, f, e, counts, a, off, to, k)
  }

  lemma {:induction false} TypePlaces(sch: Schema, mem: seq<byte>, f: nat, t: Type, counts: seq<nat>, a: nat, rel: nat, off: int, to: Target)
    requires ValidSchema(sch) && f < |sch| && ValidType(sch, f, t, false)
    ensures At(sch, mem, f, t, counts, a, off, to) <==> Listed(mem, TypeSlots(sch, mem, f, t, counts, a, rel), a, rel, off, to)
    decreases ByValueDepth(sch, t), 0, Height(t), 0
  {
    hide ValidSchema, ValidSlots, LoadPtr, ElemSlots, FieldSlots, ElemAt, RecordAt, Aim;
    match t
    case Simple(_) =>
    case Text => OneListed(mem, Slot(rel, LoadPtr(mem, a), false, CString), a, rel, off, to);
    case Pointer(n) => OneListed(mem, Slot(rel, LoadPtr(mem, a), sch[f].recursive, Aim(sch, f, n, counts)), a, rel, off, to);
    case Array(_, _) =>
      ElemTypeValid(sch, f, t, false);
      ElemDepth(sch, t);
      ElemPlaces(sch, mem, f, ElemType(t), counts, ElemCount(t, counts), a, rel, off, to);
      ArrayFlat(sch, mem, f, t, counts, a, off, to);
    case Subformat(g) =>
      RecordPlaces(sch, mem, g, a, rel, off, to);
  }

  lemma OneListed(mem: seq<byte>, s: Slot, a: nat, rel: nat, off: int, to: Target)
    requires s.rel == rel && s.ptr == LoadPtr(mem, a)
    ensures Listed(mem, [s], a, rel, off, to) <==> off == 0 && to == s.target
  {
    hide LoadPtr;
    if off == 0 && to == s.target { assert IsSlot(mem, [s][0], a, rel, off, to); }
  }

  lemma {:induction false} ElemPlaces(sch: Schema, mem: seq<byte>, f: nat, e: Type, counts: seq<nat>, n: nat, a: nat, rel: nat, off: int, to: Target)
    requires ValidSchema(sch) && f < |sch| && ValidType(sch, f, e, false) && !e.Array?
    ensures ElemAt(sch, mem, f, e, counts, n, a, off, to) <==> Listed(mem, ElemSlots(sch, mem, f, e, counts, n, a, rel), a, rel, off, to)
    decreases ByValueDepth(sch, e), 0, Height(e), n + 1
  {
    hide ValidSchema, ValidSlots, LoadPtr, TypeSlots, At, IsSlot, ValidType, ElemSize, SlotsIn;
    if n > 0 {
      var z := ElemSize(sch, e);
      var x, y := TypeSlots(sch, mem, f, e, counts, a, rel), ElemSlots(sch, mem, f, e, counts, n - 1, a + z, rel + z);
      TypePlaces(sch, mem, f, e, counts, a, rel, off, to);
      ElemPlaces(sch, mem, f, e, counts, n - 1, a + z, rel + z, off - z, to);
      ListedBoth(mem, x, y, a, rel, off, to);
      LaterElems(sch, mem, f, e, counts, n - 1, a + z, rel + z);
      ListedShift(mem, y, a, rel, off, to, z);
      FirstElem(sch, mem, f, e, counts, n, a, off, to);
    }
  }

  lemma LaterElems(sch: Schema, mem: seq<byte>, f: nat, e: Type, counts: seq<nat>, n: nat, a: nat, rel: nat)
    requires ValidSchema(sch) && f < |sch| && ValidType(sch, f, e, false) && !e.Array?
    ensures var s := ElemSlots(sch, mem, f, e, counts, n, a, rel); forall i :: 0 <= i < |s| ==> s[i].rel >= rel
  {
    hide ValidSchema, ElemSlots, ValidSlot;
    ElemSlotsIn(sch, mem, f, e, counts, n, a, rel);
  }

  /** Element k of the later ones is element k + 1. */
  lemma NthNext(sch: Schema, mem: seq<byte>, f: nat, e: Type, counts: seq<nat>, a: nat, off: int, to: Target, k: nat)
    requires ValidSchema(sch) && f < |sch| && ValidType(sch, f, e, false) && !e.Array?
    ensures var z := ElemSize(sch, e);
      Nth(sch, mem, f, e, counts, a + z, off - z, to, k) <==> Nth(sch, mem, f, e, counts, a, off, to, k + 1)
  {
    hide ValidSchema, At, ValidType, ElemSize, Size;
    ElemSizeIs(sch, e, counts);
    MulStep(k + 1, ElemSize(sch, e));
  }

  lemma NthFirst(sch: Schema, mem: seq<byte>, f: nat, e: Type, counts: seq<nat>, a: nat, off: int, to: Target)
    requires ValidSchema(sch) && f < |sch| && ValidType(sch, f, e, false)
    ensures Nth(sch, mem, f, e, counts, a, off, to, 0) <==> At(sch, mem, f, e, counts, a, off, to)
  {
    hide ValidSchema, At, ValidType, Size;
  }

  /** The first element or one of the others. */
  lemma FirstElem(sch: Schema, mem: seq<byte>, f: nat, e: Type, counts: seq<nat>, n: nat, a: nat, off: int, to: Target)
    requires ValidSchema(sch) && f < |sch| && ValidType(sch, f, e, false) && !e.Array? && n > 0
    ensures ElemAt(sch, mem, f, e, counts, n, a, off, to) <==>
      At(sch, mem, f, e, counts, a, off, to) || ElemAt(sch, mem, f, e, counts, n - 1, a + ElemSize(sch, e), off - ElemSize(sch, e), to)
  {
    hide ValidSchema, At, ElemSize, ValidType, Nth;
    NthFirst(sch, mem, f, e, counts, a, off, to);
    var z := ElemSize(sch, e);
    if ElemAt(sch, mem, f, e, counts, n, a, off, to) {
      var k: nat :| k < n && Nth(sch, mem, f, e, counts, a, off, to, k);
      if k > 0 { NthNext(sch, mem, f, e, counts, a, off, to, k - 1); }
    }
    if ElemAt(sch, mem, f, e, counts, n - 1, a + z, off - z, to) {
      var k: nat :| k < n - 1 && Nth(sch, mem, f, e, counts, a + z, off - z, to, k);
      NthNext(sch, mem, f, e, counts, a, off, to, k);
    }
  }

  /** An array of arrays is an array of their elements. */
  lemma {:induction false} ArrayFlat(sch: Schema, mem: seq<byte>, f: nat, t: Type, counts: seq<nat>, a: nat, off: int, to: Target)
    requires ValidSchema(sch) && f < |sch| && ValidType(sch, f, t, false)
    ensures ValidType(sch, f, ElemType(t), false)
    ensures At(sch, mem, f, t, counts, a, off, to) <==> ElemAt(sch, mem, f, ElemType(t), counts, ElemCount(t, counts), a, off, to)
    decreases Height(t), 1
  {
    ElemTypeValid(sch, f, t, false);
    if t.Array? {
      ArrayOfArrays(sch, mem, f, t, counts, a, off, to);
    } else {
      OnlyElem(sch, mem, f, t, counts, a, off, to);
    }
  }

  lemma OnlyElem(sch: Schema, mem: seq<byte>, f: nat, e: Type, counts: seq<nat>, a: nat, off: int, to: Target)
    requires ValidSchema(sch) && f < |sch| && ValidType(sch, f, e, false)
    ensures At(sch, mem, f, e, counts, a, off, to) <==> ElemAt(sch, mem, f, e, counts, 1, a, off, to)
  {
    hide ValidSchema, At, Nth, ValidType;
    NthFirst(sch, mem, f, e, counts, a, off, to);
  }

  lemma {:induction false} ArrayOfArrays(sch: Schema, mem: seq<byte>, f: nat, t: Type, counts: seq<nat>, a: nat, off: int, to: Target)
    requires ValidSchema(sch) && f < |sch| && ValidType(sch, f, t, false) && ValidType(sch, f, ElemType(t), false) && t.Array?
    ensures At(sch, mem, f, t, counts, a, off, to) <==> ElemAt(sch, mem, f, ElemType(t), counts, ElemCount(t, counts), a, off, to)
    decreases Height(t), 0
  {
    hide ValidSchema, Nth, ElemAt;
    var e, d, c := ElemType(t), DimSize(t.dim, counts), ElemCount(t.next, counts);
    forall k: nat | k < d
      ensures Nth(sch, mem, f, t.next, counts, a, off, to, k) <==> InRow(sch, mem, f, e, counts, c, a, off, to, k)
    {
      RowFlat(sch, mem, f, t.next, counts, a, off, to, k);
    }
    RowsFlat(sch, mem, f, e, counts, d, c, a, off, to);
  }

  /** Among elements k * c to k * c + c - 1. */
  ghost predicate InRow(sch: Schema, mem: seq<byte>, f: nat, e: Type, counts: seq<nat>, c: nat, a: nat, off: int, to: Target, k: nat)
    requires ValidSchema(sch) && f < |sch| && ValidType(sch, f, e, false)
  {
    exists l: nat :: l < c && Within(sch, mem, f, e, counts, c, a, off, to, k, l)
  }

  ghost predicate Within(sch: Schema, mem: seq<byte>, f: nat, e: Type, counts: seq<nat>, c: nat, a: nat, off: int, to: Target, k: nat, l: nat)
    requires ValidSchema(sch) && f < |sch| && ValidType(sch, f, e, false)
  {
    Nth(sch, mem, f, e, counts, a, off, to, k * c + l)
  }

  lemma {:induction false} RowFlat(sch: Schema, mem: seq<byte>, f: nat, t: Type, counts: seq<nat>, a: nat, off: int, to: Target, k: nat)
    requires ValidSchema(sch) && f < |sch| && ValidType(sch, f, t, false) && ValidType(sch, f, ElemType(t), false)
    ensures Nth(sch, mem, f, t, counts, a, off, to, k) <==> InRow(sch, mem, f, ElemType(t), counts, ElemCount(t, counts), a, off, to, k)
    decreases Height(t), 2
  {
    hide ValidSchema, ValidType, At;
    var e, c, m := ElemType(t), ElemCount(t, counts), k * Size(sch, t, counts);
    ArrayFlat(sch, mem, f, t, counts, a + m, off - m, to);
    NthIs(sch, mem, f, t, counts, a, off, to, k);
    forall l: nat
      ensures Nth(sch, mem, f, e, counts, a + m, off - m, to, l) <==> Within(sch, mem, f, e, counts, c, a, off, to, k, l)
    {
      WithinIs(sch, mem, f, t, counts, a, off, to, k, l);
    }
    assert Nth(sch, mem, f, t, counts, a, off, to, k) <==> ElemAt(sch, mem, f, e, counts, c, a + m, off - m, to);
    if ElemAt(sch, mem, f, e, counts, c, a + m, off - m, to) {
      var l: nat :| l < c && Nth(sch, mem, f, e, counts, a + m, off - m, to, l);
      assert Within(sch, mem, f, e, counts, c, a, off, to, k, l);
    }
    if InRow(sch, mem, f, e, counts, c, a, off, to, k) {
      var l: nat :| l < c && Within(sch, mem, f, e, counts, c, a, off, to, k, l);
      assert Nth(sch, mem, f, e, counts, a + m, off - m, to, l);
    }
  }

  lemma NthIs(sch: Schema, mem: seq<byte>, f: nat, t: Type, counts: seq<nat>, a: nat, off: int, to: Target, k: nat)
    requires ValidSchema(sch) && f < |sch| && ValidType(sch, f, t, false)
    ensures Nth(sch, mem, f, t, counts, a, off, to, k) <==> At(sch, mem, f, t, counts, a + k * Size(sch, t, counts), off - k * Size(sch, t, counts), to)
  {
    hide ValidSchema, At;
  }

  lemma WithinIs(sch: Schema, mem: seq<byte>, f: nat, t: Type, counts: seq<nat>, a: nat, off: int, to: Target, k: nat, l: nat)
    requires ValidSchema(sch) && f < |sch| && ValidType(sch, f, t, false) && ValidType(sch, f, ElemType(t), false)
    ensures Nth(sch, mem, f, ElemType(t), counts, a + k * Size(sch, t, counts), off - k * Size(sch, t, counts), to, l)
      <==> Within(sch, mem, f, ElemType(t), counts, ElemCount(t, counts), a, off, to, k, l)
  {
    hide ValidSchema, At, ElemSize, ElemCount, ElemType;
    var e, c := ElemType(t), ElemCount(t, counts);
    var z := ElemSize(sch, e);
    ElemSizeIs(sch, e, counts);
    assert k * (c * z) + l * z == (k * c + l) * z;
  }

  lemma RowsFlat(sch: Schema, mem: seq<byte>, f: nat, e: Type, counts: seq<nat>, d: nat, c: nat, a: nat, off: int, to: Target)
    requires ValidSchema(sch) && f < |sch| && ValidType(sch, f, e, false)
    ensures (exists k: nat :: k < d && InRow(sch, mem, f, e, counts, c, a, off, to, k)) <==> ElemAt(sch, mem, f, e, counts, d * c, a, off, to)
  {
    hide ValidSchema, ValidType, Nth, InRow;
    if k: nat :| k < d && InRow(sch, mem, f, e, counts, c, a, off, to, k) {
      var l := RowElem(sch, mem, f, e, counts, c, a, off, to, k);
      Flatten(k, l, d, c);
    }
    if ElemAt(sch, mem, f, e, counts, d * c, a, off, to) {
      var m: nat :| m < d * c && Nth(sch, mem, f, e, counts, a, off, to, m);
      var k, l := Unflatten(m, d, c);
      ElemRow(sch, mem, f, e, counts, c, a, off, to, k, l);
    }
  }

  lemma RowElem(sch: Schema, mem: seq<byte>, f: nat, e: Type, counts: seq<nat>, c: nat, a: nat, off: int, to: Target, k: nat) returns (l: nat)
    requires ValidSchema(sch) && f < |sch| && ValidType(sch, f, e, false)
    requires InRow(sch, mem, f, e, counts, c, a, off, to, k)
    ensures l < c && Nth(sch, mem, f, e, counts, a, off, to, k * c + l)
  {
    hide ValidSchema, ValidType, Nth;
    l :| l < c && Within(sch, mem, f, e, counts, c, a, off, to, k, l);
  }

  lemma ElemRow(sch: Schema, mem: seq<byte>, f: nat, e: Type, counts: seq<nat>, c: nat, a: nat, off: int, to: Target, k: nat, l: nat)
    requires ValidSchema(sch) && f < |sch| && ValidType(sch, f, e, false)
    requires l < c && Nth(sch, mem, f, e, counts, a, off, to, k * c + l)
    ensures InRow(sch, mem, f, e, counts, c, a, off, to, k)
  {
    hide ValidSchema, ValidType, Nth;
    assert Within(sch, mem, f, e, counts, c, a, off, to, k, l);
  }

  lemma Flatten(k: nat, l: nat, d: nat, c: nat)
    requires k < d && l < c
    ensures k * c + l < d * c
  {
    assert (k + 1) * c <= d * c;
  }

  lemma Unflatten(m: nat, d: nat, c: nat) returns (k: nat, l: nat)
    requires m < d * c
    ensures k < d && l < c && m == k * c + l
  {
    k, l := m / c, m % c;
    Below(k, d, c);
  }

  lemma Below(k: nat, d: nat, c: nat)
    requires k * c < d * c
    ensures k < d
  {
  }

  lemma RecordPlaces(sch: Schema, mem: seq<byte>, f: nat, a: nat, rel: nat, off: int, to: Target)
    requires ValidSchema(sch) && f < |sch|
    ensures RecordAt(sch, mem, f, a, off, to) <==> Listed(mem, FieldSlots(sch, mem, f, 0, a, rel), a, rel, off, to)
    decreases sch[f].level, 2, 0, 0
  {
    hide ValidSchema, FieldSlots, FieldAt, Listed;
    FieldPlaces(sch, mem, f, 0, a, rel, off, to);
  }

  /** In one of the fields from i on. */
  ghost predicate FromField(sch: Schema, mem: seq<byte>, f: nat, i: nat, a: nat, off: int, to: Target)
    requires ValidSchema(sch) && f < |sch|
  {
    exists j: nat :: i <= j < |sch[f].fields| && FieldAt(sch, mem, f, j, a, off, to)
  }

  lemma FromFieldStep(sch: Schema, mem: seq<byte>, f: nat, i: nat, a: nat, off: int, to: Target)
    requires ValidSchema(sch) && f < |sch| && i < |sch[f].fields|
    ensures FromField(sch, mem, f, i, a, off, to) <==> FieldAt(sch, mem, f, i, a, off, to) || FromField(sch, mem, f, i + 1, a, off, to)
  {
    hide ValidSchema, FieldAt;
  }

  lemma {:induction false} FieldPlaces(sch: Schema, mem: seq<byte>, f: nat, i: nat, a: nat, rel: nat, off: int, to: Target)
    requires ValidSchema(sch) && f < |sch| && i <= |sch[f].fields|
    ensures FromField(sch, mem, f, i, a, off, to) <==> Listed(mem, FieldSlots(sch, mem, f, i, a, rel), a, rel, off, to)
    decreases sch[f].level, 1, |sch[f].fields| - i, 0
  {
    hide ValidSchema, ValidSlots, LoadPtr, TypeSlots, IsSlot, At, Counts, SlotsIn, MaxRank, Size, Extent, FromField;
    if i < |sch[f].fields| {
      var fd := sch[f].fields[i];
      var counts := Counts(sch, f, mem, a);
      FieldUnfold(sch, mem, f, i, a, rel);
      var x := TypeSlots(sch, mem, f, fd.typ, counts, a + fd.offset, rel + fd.offset);
      var y := FieldSlots(sch, mem, f, i + 1, a, rel);
      TypePlaces(sch, mem, f, fd.typ, counts, a + fd.offset, rel + fd.offset, off - fd.offset, to);
      FieldPlaces(sch, mem, f, i + 1, a, rel, off, to);
      ListedBoth(mem, x, y, a, rel, off, to);
      NotBefore(sch, x, rel + fd.offset, rel + fd.offset + Extent(sch, fd));
      ListedShift(mem, x, a, rel, off, to, fd.offset);
      FromFieldStep(sch, mem, f, i, a, off, to);
    } else {
      NoField(sch, mem, f, a, off, to);
    }
  }

  lemma NoField(sch: Schema, mem: seq<byte>, f: nat, a: nat, off: int, to: Target)
    requires ValidSchema(sch) && f < |sch|
    ensures !FromField(sch, mem, f, |sch[f].fields|, a, off, to)
  {
    hide ValidSchema, FieldAt;
  }

  lemma NotBefore(sch: Schema, s: seq<Slot>, lo: nat, hi: nat)
    requires SlotsIn(sch, s, lo, hi)
    ensures forall i :: 0 <= i < |s| ==> s[i].rel >= lo
  {
  }

  /** The places of an object are where its slots are. */
  lemma ObjectPlaces(sch: Schema, mem: seq<byte>, t: Target, p: nat, off: int, to: Target)
    requires ValidSchema(sch) && ValidTarget(sch, t)
    ensures ObjectAt(sch, mem, t, p, off, to) <==> Listed(mem, TargetSlots(sch, mem, p, t), p, 0, off, to)
  {
    hide ValidSchema, FieldSlots, TypeSlots, At, RecordAt, IsSlot;
    match t
    case CString =>
    case Data(f, ty) => TypePlaces(sch, mem, f, ty, [], p, 0, off, to);
    case Record(f) => RecordPlaces(sch, mem, f, p, 0, off, to);
  }
}
