/** Record formats as the encoder and decoder see them: a field list with type
    descriptors (fm/fm_internal.h), plus the flags computed at registration. */
module Formats {
  import opened Bytes

  datatype Dim = Static(count: nat) | Control(field: nat)

  datatype Type =
    | Simple(size: nat)
    | Text
    | Pointer(next: Type)
    | Array(dim: Dim, next: Type)
    | Subformat(index: nat)

  datatype Field = Field(offset: nat, size: nat, typ: Type)

  /** `level` witnesses that records do not contain themselves by value, and that every
      cycle of pointers between formats passes through one flagged recursive. */
  datatype Format = Format(recordLength: nat, variant: bool, recursive: bool, fields: seq<Field>, level: nat)

  type Schema = seq<Format>

  const PointerSize: nat := 8

  function Height(t: Type): nat {
    match t
    case Pointer(n) => 1 + Height(n)
    case Array(_, n) => 1 + Height(n)
    case _ => 0
  }

  /** The element type below all array dimensions. */
  function ElemType(t: Type): (e: Type)
    ensures !e.Array?
    ensures Height(e) <= Height(t)
    ensures t.Array? ==> Height(e) < Height(t)
  {
    if t.Array? then ElemType(t.next) else t
  }

  function DimSize(d: Dim, counts: seq<nat>): nat {
    match d
    case Static(n) => n
    case Control(j) => if j < |counts| then counts[j] else 0
  }

  function ElemCount(t: Type, counts: seq<nat>): nat {
    if t.Array? then DimSize(t.dim, counts) * ElemCount(t.next, counts) else 1
  }

  function ElemSize(sch: Schema, t: Type): nat
    requires !t.Array?
  {
    match t
    case Simple(n) => n
    case Subformat(g) => if g < |sch| then sch[g].recordLength else 0
    case _ => PointerSize
  }

  /** Bytes occupied by a value, given the control values of the enclosing record. */
  function Size(sch: Schema, t: Type, counts: seq<nat>): nat {
    ElemCount(t, counts) * ElemSize(sch, ElemType(t))
  }

  /** No pointer inside, as judged by the variant flags (field_is_flat). */
  predicate IsFlat(sch: Schema, t: Type) {
    match t
    case Simple(_) => true
    case Array(_, n) => IsFlat(sch, n)
    case Subformat(g) => g < |sch| && !sch[g].variant
    case _ => false
  }

  predicate Below(sch: Schema, g: nat, f: nat)
    requires g < |sch| && f < |sch|
  {
    && sch[g].level < sch[f].level
    && forall k :: 0 <= k < |sch[g].fields| ==> sch[g].level + Height(sch[g].fields[k].typ) < sch[f].level
  }

  /** Control dimensions occur only behind a pointer and name a simple field. */
  predicate ValidType(sch: Schema, f: nat, t: Type, byValue: bool)
    requires f < |sch|
  {
    match t
    case Simple(_) => true
    case Text => true
    case Pointer(n) => ValidType(sch, f, n, false)
    case Array(d, n) =>
      && (d.Control? ==> !byValue && d.field < |sch[f].fields| && sch[f].fields[d.field].typ.Simple?)
      && ValidType(sch, f, n, byValue)
    case Subformat(g) =>
      g < |sch| && (byValue || !sch[f].recursive ==> Below(sch, g, f))
  }

  function Extent(sch: Schema, fd: Field): nat {
    Size(sch, fd.typ, [])
  }

  predicate ValidFormat(sch: Schema, f: nat)
    requires f < |sch|
  {
    var fs := sch[f].fields;
    && (forall i :: 0 <= i < |fs| ==>
          && ValidType(sch, f, fs[i].typ, true)
          && fs[i].offset + Extent(sch, fs[i]) <= sch[f].recordLength
          && (!IsFlat(sch, fs[i].typ) ==> sch[f].variant))
    && (forall i, j :: 0 <= i < j < |fs| ==> fs[i].offset + Extent(sch, fs[i]) <= fs[j].offset)
  }

  /** What registration establishes: fields sorted by offset without overlap, variant flags
      closed upwards, containment by value acyclic. */
  predicate ValidSchema(sch: Schema) {
    forall f :: 0 <= f < |sch| ==> ValidFormat(sch, f)
  }

  lemma {:induction false} StaticCounts(sch: Schema, f: nat, t: Type, c1: seq<nat>, c2: seq<nat>)
    requires f < |sch| && ValidType(sch, f, t, true)
    ensures ElemCount(t, c1) == ElemCount(t, c2)
  {
    if t.Array? {
      StaticCounts(sch, f, t.next, c1, c2);
    }
  }

  lemma {:induction false} ElemTypeValid(sch: Schema, f: nat, t: Type, byValue: bool)
    requires f < |sch| && ValidType(sch, f, t, byValue)
    ensures ValidType(sch, f, ElemType(t), byValue)
    ensures IsFlat(sch, t) == IsFlat(sch, ElemType(t))
  {
    if t.Array? {
      ElemTypeValid(sch, f, t.next, byValue);
    }
  }
}
