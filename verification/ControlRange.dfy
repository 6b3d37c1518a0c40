/** When the decoder reads the control values of dimensions as the encoder did: it reads them
    signed, so they must be in the signed range of their fields. */
module ControlRange {
  import opened Bytes
  import opened Formats
  import opened ObjectGraph
  import opened EncodeSpec
  import opened EncodeFrame
  import opened EncodeReady
  import opened EncodeMeaning
  import opened DecodeSpec

  /** get_big_int reads a control field as a signed integer, here cast back to size_t. */
  function SignExtended(size: nat, v: nat): nat {
    if size in {1, 2, 4} && v < Pow256(size) && 2 * v >= Pow256(size) then v + (POW64 - Pow256(size)) else v
  }

  /** Fields whose values are dimensions of t. */
  function Named(t: Type): set<nat> {
    match t
    case Pointer(n) => Named(n)
    case Array(d, n) => (if d.Control? then {d.field} else {}) + Named(n)
    case _ => {}
  }

  /** The control values a field's type names are in the signed range of their fields. */
  ghost predicate DimsFit(sch: Schema, f: nat, t: Type, counts: seq<nat>)
    requires f < |sch|
  {
    forall j :: j in Named(t) && j < |counts| && j < |sch[f].fields| && sch[f].fields[j].typ.Simple? ==>
      SignExtended(sch[f].fields[j].typ.size, counts[j]) == counts[j]
  }

  /** They are for every record held by value inside a value. */
  ghost predicate TypeFits(sch: Schema, mem: seq<byte>, f: nat, t: Type, counts: seq<nat>, a: nat)
    requires ValidSchema(sch) && f < |sch| && ValidType(sch, f, t, false)
    decreases ByValueDepth(sch, t), 0, Height(t), 0
  {
    match t
    case Array(_, _) =>
      ElemTypeValid(sch, f, t, false);
      ElemDepth(sch, t);
      ElemFits(sch, mem, f, ElemType(t), counts, ElemCount(t, counts), a)
    case Subformat(g) => RecordFits(sch, mem, g, a)
    case _ => true
  }

  ghost predicate ElemFits(sch: Schema, mem: seq<byte>, f: nat, e: Type, counts: seq<nat>, n: nat, a: nat)
    requires ValidSchema(sch) && f < |sch| && ValidType(sch, f, e, false) && !e.Array?
    decreases ByValueDepth(sch, e), 0, Height(e), n + 1
  {
    n == 0 || (TypeFits(sch, mem, f, e, counts, a) && ElemFits(sch, mem, f, e, counts, n - 1, a + ElemSize(sch, e)))
  }

  ghost predicate RecordFits(sch: Schema, mem: seq<byte>, f: nat, a: nat)
    requires ValidSchema(sch) && f < |sch|
    decreases sch[f].level, 2, 0, 0
  {
    FieldsFit(sch, mem, f, 0, a)
  }

  ghost predicate FieldsFit(sch: Schema, mem: seq<byte>, f: nat, i: nat, a: nat)
    requires ValidSchema(sch) && f < |sch| && i <= |sch[f].fields|
    decreases sch[f].level, 1, 1, 0
  {
    forall k :: i <= k < |sch[f].fields| ==> FieldFits(sch, mem, f, k, a)
  }

  ghost predicate FieldFits(sch: Schema, mem: seq<byte>, f: nat, i: nat, a: nat)
    requires ValidSchema(sch) && f < |sch| && i < |sch[f].fields|
    decreases sch[f].level, 1, 0, 0
  {
    var fd := sch[f].fields[i];
    assert ValidFormat(sch, f);
    ByValueValid(sch, f, fd.typ);
    ByValueDepthOk(sch, f, fd.typ);
    DimsFit(sch, f, fd.typ, Counts(sch, f, mem, a)) && TypeFits(sch, mem, f, fd.typ, Counts(sch, f, mem, a), a + fd.offset)
  }

  ghost predicate TargetFits(sch: Schema, mem: seq<byte>, p: nat, t: Target)
    requires ValidSchema(sch)
  {
    ValidTarget(sch, t) ==>
      match t
      case CString => true
      case Data(f, ty) => TypeFits(sch, mem, f, ty, [], p)
      case Record(f) => RecordFits(sch, mem, f, p)
  }

  // ----- a resolved type fits as the type it came from

  lemma {:induction false} AimFits(sch: Schema, mem: seq<byte>, f: nat, t: Type, counts: seq<nat>, a: nat)
    requires ValidSchema(sch) && f < |sch| && ValidType(sch, f, t, false)
    ensures ValidType(sch, Home(sch, f), Resolve(t, counts), false)
    ensures TypeFits(sch, mem, Home(sch, f), Resolve(t, counts), [], a) == TypeFits(sch, mem, f, t, counts, a)
    decreases ByValueDepth(sch, t), 0, Height(t), 0
  {
    ResolveValid(sch, f, t, counts);
    ResolveIs(sch, t, counts);
    if t.Array? {
      ElemTypeValid(sch, f, t, false);
      ElemDepth(sch, t);
      AimElemFits(sch, mem, f, ElemType(t), counts, ElemCount(t, counts), a);
    }
  }

  lemma {:induction false} AimElemFits(sch: Schema, mem: seq<byte>, f: nat, e: Type, counts: seq<nat>, n: nat, a: nat)
    requires ValidSchema(sch) && f < |sch| && ValidType(sch, f, e, false) && !e.Array?
    ensures ValidType(sch, Home(sch, f), Resolve(e, counts), false)
    ensures ElemFits(sch, mem, Home(sch, f), Resolve(e, counts), [], n, a) == ElemFits(sch, mem, f, e, counts, n, a)
    decreases ByValueDepth(sch, e), 0, Height(e), n + 1
  {
    hide TypeFits;
    ResolveValid(sch, f, e, counts);
    if n > 0 {
      AimFits(sch, mem, f, e, counts, a);
      AimElemFits(sch, mem, f, e, counts, n - 1, a + ElemSize(sch, e));
    }
  }

  // ----- what fits in memory fits in the message

  lemma {:induction false} TypeFitsKept(sch: Schema, m: seq<byte>, l: nat, mem: seq<byte>, a: nat, f: nat, t: Type, counts: seq<nat>, rel: nat)
    requires ValidSchema(sch) && f < |sch| && ValidType(sch, f, t, false)
    requires KeptOutside(m, l, mem, a, rel, rel + Size(sch, t, counts), TypeSlots(sch, mem, f, t, counts, a + rel, rel))
    requires TypeFits(sch, mem, f, t, counts, a + rel)
    ensures TypeFits(sch, m, f, t, counts, l + rel)
    decreases ByValueDepth(sch, t), 0, Height(t), 0
  {
    hide ValidSchema, ValidSlots, LoadPtr, KeptOutside;
    match t
    case Array(_, _) =>
      ElemTypeValid(sch, f, t, false);
      ElemDepth(sch, t);
      ElemFitsKept(sch, m, l, mem, a, f, ElemType(t), counts, ElemCount(t, counts), rel);
    case Subformat(g) =>
      ElemSizeIs(sch, t, counts);
      RecordFitsKept(sch, m, l, mem, a, g, rel);
    case _ =>
  }

  lemma ElemFitsIs(sch: Schema, mem: seq<byte>, f: nat, e: Type, counts: seq<nat>, n: nat, a: nat)
    requires ValidSchema(sch) && f < |sch| && ValidType(sch, f, e, false) && !e.Array?
    ensures n == 0 ==> ElemFits(sch, mem, f, e, counts, n, a)
    ensures n > 0 ==> (ElemFits(sch, mem, f, e, counts, n, a) <==>
      TypeFits(sch, mem, f, e, counts, a) && ElemFits(sch, mem, f, e, counts, n - 1, a + ElemSize(sch, e)))
  {
    hide ValidSchema, TypeFits, ElemSize;
  }

  lemma {:induction false} ElemFitsKept(sch: Schema, m: seq<byte>, l: nat, mem: seq<byte>, a: nat, f: nat, e: Type, counts: seq<nat>, n: nat, rel: nat)
    requires ValidSchema(sch) && f < |sch| && ValidType(sch, f, e, false) && !e.Array?
    requires KeptOutside(m, l, mem, a, rel, rel + n * ElemSize(sch, e), ElemSlots(sch, mem, f, e, counts, n, a + rel, rel))
    requires ElemFits(sch, mem, f, e, counts, n, a + rel)
    ensures ElemFits(sch, m, f, e, counts, n, l + rel)
    decreases ByValueDepth(sch, e), 0, Height(e), n + 1
  {
    hide ValidSchema, ValidSlots, LoadPtr, KeptOutside, TypeSlots, SlotsIn, MaxRank, Size, TypeFits, ElemFits, ElemSlots, ElemSize, ValidType;
    ElemFitsIs(sch, mem, f, e, counts, n, a + rel);
    ElemFitsIs(sch, m, f, e, counts, n, l + rel);
    if n > 0 {
      var z := ElemSize(sch, e);
      ElemUnfold(sch, mem, f, e, counts, n, a + rel, rel);
      var x := TypeSlots(sch, mem, f, e, counts, a + rel, rel);
      var y := ElemSlots(sch, mem, f, e, counts, n - 1, a + rel + z, rel + z);
      ElemSlotsIn(sch, mem, f, e, counts, n - 1, a + rel + z, rel + z);
      KeptParts(sch, m, l, mem, a, rel, x, rel + z, rel + z, y, rel + n * z);
      TypeFitsKept(sch, m, l, mem, a, f, e, counts, rel);
      ElemFitsKept(sch, m, l, mem, a, f, e, counts, n - 1, rel + z);
    }
  }

  lemma {:induction false} RecordFitsKept(sch: Schema, m: seq<byte>, l: nat, mem: seq<byte>, a: nat, f: nat, rel: nat)
    requires ValidSchema(sch) && f < |sch|
    requires KeptOutside(m, l, mem, a, rel, rel + sch[f].recordLength, FieldSlots(sch, mem, f, 0, a + rel, rel))
    requires RecordFits(sch, mem, f, a + rel)
    ensures RecordFits(sch, m, f, l + rel)
    decreases sch[f].level, 2, 0, 0
  {
    hide FieldSlots, ValidSchema, FieldFits;
    CountsCorrespond(sch, m, l, mem, a, f, rel);
    FieldStartKept(sch, m, l, mem, a, f, rel);
    FieldsFitKept(sch, m, l, mem, a, f, 0, rel);
  }

  lemma {:induction false} FieldsFitKept(sch: Schema, m: seq<byte>, l: nat, mem: seq<byte>, a: nat, f: nat, i: nat, rel: nat)
    requires ValidSchema(sch) && f < |sch| && i <= |sch[f].fields|
    requires Counts(sch, f, m, l + rel) == Counts(sch, f, mem, a + rel)
    requires KeptOutside(m, l, mem, a, rel + FieldStart(sch, f, i), rel + sch[f].recordLength, FieldSlots(sch, mem, f, i, a + rel, rel))
    requires FieldsFit(sch, mem, f, i, a + rel)
    ensures FieldsFit(sch, m, f, i, l + rel)
    decreases sch[f].level, 1, |sch[f].fields| - i, 0
  {
    hide ValidSchema, ValidSlots, LoadPtr, KeptOutside, TypeSlots, SlotsIn, MaxRank, Size, Counts, Extent, TypeFits, DimsFit;
    if i < |sch[f].fields| {
      var fd := sch[f].fields[i];
      var counts := Counts(sch, f, mem, a + rel);
      FieldUnfold(sch, mem, f, i, a + rel, rel);
      var x := TypeSlots(sch, mem, f, fd.typ, counts, a + rel + fd.offset, rel + fd.offset);
      var y := FieldSlots(sch, mem, f, i + 1, a + rel, rel);
      FieldSlotsIn(sch, mem, f, i + 1, a + rel, rel);
      FieldSize(sch, f, i, counts);
      FieldStartBound(sch, f, i + 1);
      KeptParts(sch, m, l, mem, a, rel + fd.offset, x, rel + fd.offset + Extent(sch, fd), rel + FieldStart(sch, f, i + 1), y, rel + sch[f].recordLength);
      assert FieldFits(sch, mem, f, i, a + rel);
      TypeFitsKept(sch, m, l, mem, a, f, fd.typ, counts, rel + fd.offset);
      FieldsFitKept(sch, m, l, mem, a, f, i + 1, rel);
    }
  }

  lemma TargetFitsKept(sch: Schema, m: seq<byte>, l: nat, mem: seq<byte>, a: nat, t: Target)
    requires ValidSchema(sch) && ValidTarget(sch, t) && TargetFits(sch, mem, a, t)
    requires KeptOutside(m, l, mem, a, 0, TargetSize(sch, mem, a, t), TargetSlots(sch, mem, a, t))
    ensures TargetFits(sch, m, l, t)
  {
    hide TypeSlots, FieldSlots, Size, ValidSchema, ValidType, TypeFits, RecordFits;
    match t
    case CString =>
    case Data(f, ty) => TypeFitsKept(sch, m, l, mem, a, f, ty, [], 0);
    case Record(f) => RecordFitsKept(sch, m, l, mem, a, f, 0);
  }
}
