/** The object graph a record denotes: for each object in memory, the pointers stored in
    it, in traversal order. This is what encoding and decoding must preserve; it knows
    nothing of messages, buffers or traversal state. */
module ObjectGraph {
  import opened Bytes
  import opened Formats

  /** What an object is: a C string, data laid out by a type in which every dimension is a
      number, or the record being encoded. The format says whether sharing is tracked behind
      pointers inside. */
  datatype Target = CString | Data(format: nat, typ: Type) | Record(format: nat)

  /** A pointer stored `rel` bytes into an object. `tracked` pointers belong to a format
      flagged recursive, so their sharing is preserved. */
  datatype Slot = Slot(rel: nat, ptr: nat, tracked: bool, target: Target)

  predicate ValidTarget(sch: Schema, t: Target) {
    match t
    case CString => true
    case Data(f, ty) => f < |sch| && ValidType(sch, f, ty, false)
    case Record(f) => f < |sch|
  }

  /** Sharing is tracked exactly for the pointers of formats flagged recursive. */
  predicate ValidSlot(sch: Schema, s: Slot) {
    && ValidTarget(sch, s.target)
    && !s.target.Record?
    && s.ptr < POW64
    && s.tracked == (s.target.Data? && sch[s.target.format].recursive)
  }

  predicate ValidSlots(sch: Schema, s: seq<Slot>) {
    forall i :: 0 <= i < |s| ==> ValidSlot(sch, s[i])
  }

  /** Value of a control field: an unsigned integer of 1, 2, 4 or 8 bytes. */
  function ReadCount(mem: seq<byte>, a: nat, size: nat): nat {
    if size in {1, 2, 4, 8} then FromLE(Load(mem, a, size)) else 0
  }

  function Counts(sch: Schema, f: nat, mem: seq<byte>, a: nat): (c: seq<nat>)
    requires f < |sch|
    ensures |c| == |sch[f].fields|
  {
    var fs := sch[f].fields;
    seq(|fs|, j requires 0 <= j < |fs| =>
      if fs[j].typ.Simple? then ReadCount(mem, a + fs[j].offset, fs[j].typ.size) else 0)
  }

  function ByValueDepth(sch: Schema, t: Type): nat {
    match t
    case Array(_, n) => ByValueDepth(sch, n)
    case Subformat(g) => if g < |sch| then sch[g].level + 1 else 0
    case _ => 0
  }

  lemma {:induction false} ByValueDepthOk(sch: Schema, f: nat, t: Type)
    requires f < |sch| && ValidType(sch, f, t, true)
    ensures ByValueDepth(sch, t) <= sch[f].level
  {
    if t.Array? {
      ByValueDepthOk(sch, f, t.next);
    }
  }

  lemma {:induction false} ElemDepth(sch: Schema, t: Type)
    ensures ByValueDepth(sch, ElemType(t)) == ByValueDepth(sch, t)
  {
    if t.Array? {
      ElemDepth(sch, t.next);
    }
  }

  // ----- what a pointer leads to

  /** The type with the control values of the record that holds it put in. */
  function Resolve(t: Type, counts: seq<nat>): (r: Type)
    ensures r.Array? == t.Array? && Height(r) == Height(t)
  {
    match t
    case Pointer(n) => Pointer(Resolve(n, counts))
    case Array(d, n) => Array(Static(DimSize(d, counts)), Resolve(n, counts))
    case _ => t
  }

  lemma {:induction false} ResolveIs(sch: Schema, t: Type, counts: seq<nat>)
    ensures ElemType(Resolve(t, counts)) == Resolve(ElemType(t), counts)
    ensures ElemCount(Resolve(t, counts), []) == ElemCount(t, counts)
    ensures Size(sch, Resolve(t, counts), []) == Size(sch, t, counts)
    ensures ByValueDepth(sch, Resolve(t, counts)) == ByValueDepth(sch, t)
    ensures IsFlat(sch, Resolve(t, counts)) == IsFlat(sch, t)
    ensures Resolve(Resolve(t, counts), []) == Resolve(t, counts)
  {
    match t
    case Array(_, n) => ResolveIs(sch, n, counts);
    case Pointer(n) => ResolveIs(sch, n, counts);
    case _ =>
  }

  /** The first format flagged recursive: it stands for all of them, since for what lies
      behind a tracked pointer it does not matter which format held it. */
  function FirstRecursive(sch: Schema, f: nat): (h: nat)
    requires f < |sch| && exists k :: f <= k < |sch| && sch[k].recursive
    ensures h < |sch| && sch[h].recursive && f <= h && forall k :: f <= k < h ==> !sch[k].recursive
    decreases |sch| - f
  {
    if sch[f].recursive then f else FirstRecursive(sch, f + 1)
  }

  function Home(sch: Schema, f: nat): (h: nat)
    requires f < |sch|
    ensures h < |sch| && sch[h].recursive == sch[f].recursive && (!sch[f].recursive ==> h == f)
  {
    if sch[f].recursive then FirstRecursive(sch, 0) else f
  }

  lemma HomeOne(sch: Schema, f: nat, g: nat)
    requires f < |sch| && g < |sch| && sch[f].recursive && sch[g].recursive
    ensures Home(sch, f) == Home(sch, g) && Home(sch, Home(sch, f)) == Home(sch, f)
  {
  }

  lemma {:induction false} ResolveValid(sch: Schema, f: nat, t: Type, counts: seq<nat>)
    requires f < |sch| && ValidType(sch, f, t, false)
    ensures ValidType(sch, Home(sch, f), Resolve(t, counts), false)
  {
    match t
    case Array(_, n) => ResolveValid(sch, f, n, counts);
    case Pointer(n) => ResolveValid(sch, f, n, counts);
    case _ =>
  }

  /** What a pointer to type t leads to, in a record of format f with these control values. */
  function Aim(sch: Schema, f: nat, t: Type, counts: seq<nat>): (r: Target)
    requires f < |sch| && ValidType(sch, f, t, false)
    ensures r.Data? && ValidTarget(sch, r) && sch[r.format].recursive == sch[f].recursive
  {
    ResolveValid(sch, f, t, counts);
    Data(Home(sch, f), Resolve(t, counts))
  }

  /** Pointers inside a value of type t at address a, which lies rel bytes into its object. */
  function TypeSlots(sch: Schema, mem: seq<byte>, f: nat, t: Type, counts: seq<nat>, a: nat, rel: nat): (s: seq<Slot>)
    requires ValidSchema(sch) && f < |sch| && ValidType(sch, f, t, false)
    ensures ValidSlots(sch, s)
    decreases ByValueDepth(sch, t), 0, Height(t), 0
  {
    match t
    case Simple(_) => []
    case Text => [Slot(rel, LoadPtr(mem, a), false, CString)]
    case Pointer(n) => [Slot(rel, LoadPtr(mem, a), sch[f].recursive, Aim(sch, f, n, counts))]
    case Array(_, _) =>
      ElemTypeValid(sch, f, t, false);
      ElemDepth(sch, t);
      ElemSlots(sch, mem, f, ElemType(t), counts, ElemCount(t, counts), a, rel)
    case Subformat(g) =>
      FieldSlots(sch, mem, g, 0, a, rel)
  }

  function ElemSlots(sch: Schema, mem: seq<byte>, f: nat, e: Type, counts: seq<nat>, n: nat, a: nat, rel: nat): (s: seq<Slot>)
    requires ValidSchema(sch) && f < |sch| && ValidType(sch, f, e, false) && !e.Array?
    ensures ValidSlots(sch, s)
    decreases ByValueDepth(sch, e), 0, Height(e), n + 1
  {
    if n == 0 then []
    else
      var z := ElemSize(sch, e);
      TypeSlots(sch, mem, f, e, counts, a, rel) + ElemSlots(sch, mem, f, e, counts, n - 1, a + z, rel + z)
  }

  function FieldSlots(sch: Schema, mem: seq<byte>, f: nat, i: nat, a: nat, rel: nat): (s: seq<Slot>)
    requires ValidSchema(sch) && f < |sch| && i <= |sch[f].fields|
    ensures ValidSlots(sch, s)
    decreases sch[f].level, 1, |sch[f].fields| - i, 0
  {
    if i == |sch[f].fields| then []
    else
      var fd := sch[f].fields[i];
      assert ValidFormat(sch, f);
      ByValueValid(sch, f, fd.typ);
      ByValueDepthOk(sch, f, fd.typ);
      TypeSlots(sch, mem, f, fd.typ, Counts(sch, f, mem, a), a + fd.offset, rel + fd.offset)
      + FieldSlots(sch, mem, f, i + 1, a, rel)
  }

  lemma {:induction false} ByValueValid(sch: Schema, f: nat, t: Type)
    requires f < |sch| && ValidType(sch, f, t, true)
    ensures ValidType(sch, f, t, false)
  {
    if t.Array? {
      ByValueValid(sch, f, t.next);
    }
  }

  /** Length of the C string at a, without its terminator. */
  function StrLen(mem: seq<byte>, a: nat): (n: nat)
    ensures a + n < |mem| ==> mem[a + n] == 0
    ensures forall i :: a <= i < a + n ==> NonZero(mem, i)
    decreases |mem| - a
  {
    if !NonZero(mem, a) then 0 else 1 + StrLen(mem, a + 1)
  }

  predicate NonZero(mem: seq<byte>, a: nat) {
    a < |mem| && mem[a] != 0
  }

  function TargetSize(sch: Schema, mem: seq<byte>, p: nat, t: Target): nat {
    match t
    case CString => StrLen(mem, p) + 1
    case Data(_, ty) => Size(sch, ty, [])
    case Record(f) => if f < |sch| then sch[f].recordLength else 0
  }

  function TargetSlots(sch: Schema, mem: seq<byte>, p: nat, t: Target): (s: seq<Slot>)
    requires ValidSchema(sch) && ValidTarget(sch, t)
    ensures ValidSlots(sch, s)
  {
    match t
    case CString => []
    case Data(f, ty) => TypeSlots(sch, mem, f, ty, [], p, 0)
    case Record(f) => FieldSlots(sch, mem, f, 0, p, 0)
  }

  predicate TargetFlat(sch: Schema, t: Target) {
    match t
    case CString => true
    case Data(_, ty) => IsFlat(sch, ty)
    case Record(f) => f < |sch| && !sch[f].variant
  }

  // ----- the resolved target is what the type says

  lemma {:induction false} AimSlots(sch: Schema, mem: seq<byte>, f: nat, t: Type, counts: seq<nat>, a: nat, rel: nat)
    requires ValidSchema(sch) && f < |sch| && ValidType(sch, f, t, false)
    ensures ValidType(sch, Home(sch, f), Resolve(t, counts), false)
    ensures TypeSlots(sch, mem, Home(sch, f), Resolve(t, counts), [], a, rel) == TypeSlots(sch, mem, f, t, counts, a, rel)
    decreases ByValueDepth(sch, t), 0, Height(t), 0
  {
    hide ValidSlots, LoadPtr;
    ResolveValid(sch, f, t, counts);
    ResolveIs(sch, t, counts);
    match t
    case Pointer(n) => ResolveIs(sch, n, counts);
    case Array(_, _) =>
      ElemTypeValid(sch, f, t, false);
      ElemDepth(sch, t);
      AimElems(sch, mem, f, ElemType(t), counts, ElemCount(t, counts), a, rel);
    case _ =>
  }

  lemma {:induction false} AimElems(sch: Schema, mem: seq<byte>, f: nat, e: Type, counts: seq<nat>, n: nat, a: nat, rel: nat)
    requires ValidSchema(sch) && f < |sch| && ValidType(sch, f, e, false) && !e.Array?
    ensures ValidType(sch, Home(sch, f), Resolve(e, counts), false)
    ensures ElemSlots(sch, mem, Home(sch, f), Resolve(e, counts), [], n, a, rel) == ElemSlots(sch, mem, f, e, counts, n, a, rel)
    decreases ByValueDepth(sch, e), 0, Height(e), n + 1
  {
    hide ValidSlots, TypeSlots;
    ResolveValid(sch, f, e, counts);
    if n > 0 {
      var z := ElemSize(sch, e);
      AimSlots(sch, mem, f, e, counts, a, rel);
      AimElems(sch, mem, f, e, counts, n - 1, a + z, rel + z);
    }
  }

  lemma AimIs(sch: Schema, mem: seq<byte>, f: nat, t: Type, counts: seq<nat>, p: nat)
    requires ValidSchema(sch) && f < |sch| && ValidType(sch, f, t, false)
    ensures var r := Aim(sch, f, t, counts);
      && TargetSize(sch, mem, p, r) == Size(sch, t, counts) && TargetFlat(sch, r) == IsFlat(sch, t)
      && TargetSlots(sch, mem, p, r) == TypeSlots(sch, mem, f, t, counts, p, 0)
  {
    ResolveIs(sch, t, counts);
    AimSlots(sch, mem, f, t, counts, p, 0);
  }

  /** Behind tracked pointers the holder does not matter: records of two formats, or with
      different values in other fields, lead to the same object at the same type and size. */
  lemma AimShared(sch: Schema, f: nat, g: nat, t: Type, u: Type, c: seq<nat>, d: seq<nat>)
    requires f < |sch| && g < |sch| && sch[f].recursive && sch[g].recursive
    requires ValidType(sch, f, t, false) && ValidType(sch, g, u, false)
    ensures Aim(sch, f, t, c) == Aim(sch, g, u, d) <==> Resolve(t, c) == Resolve(u, d)
  {
    HomeOne(sch, f, g);
  }

  // ----- shape of slot lists

  /** Slots in order, 8 bytes each, inside [lo, hi), with valid targets. */
  predicate SlotsIn(sch: Schema, s: seq<Slot>, lo: nat, hi: nat) {
    && (forall i :: 0 <= i < |s| ==> lo <= s[i].rel && s[i].rel + PointerSize <= hi && ValidSlot(sch, s[i]))
    && (forall i, j :: 0 <= i < j < |s| ==> s[i].rel + PointerSize <= s[j].rel)
  }

  lemma SlotsInAppend(sch: Schema, s1: seq<Slot>, s2: seq<Slot>, lo: nat, m1: nat, m2: nat, hi: nat)
    requires SlotsIn(sch, s1, lo, m1) && SlotsIn(sch, s2, m2, hi) && lo <= m2 && m1 <= m2 && m1 <= hi
    ensures SlotsIn(sch, s1 + s2, lo, hi)
  {
  }

  lemma MulStep(n: nat, z: nat)
    requires n > 0
    ensures n * z == z + (n - 1) * z && (n - 1) * z >= 0
  {
  }

  lemma ElemSizeIs(sch: Schema, e: Type, counts: seq<nat>)
    requires !e.Array?
    ensures Size(sch, e, counts) == ElemSize(sch, e)
  {
  }

  lemma {:induction false} TypeSlotsIn(sch: Schema, mem: seq<byte>, f: nat, t: Type, counts: seq<nat>, a: nat, rel: nat)
    requires ValidSchema(sch) && f < |sch| && ValidType(sch, f, t, false)
    ensures SlotsIn(sch, TypeSlots(sch, mem, f, t, counts, a, rel), rel, rel + Size(sch, t, counts))
    decreases ByValueDepth(sch, t), 0, Height(t), 0
  {
    if t.Array? {
      ElemTypeValid(sch, f, t, false);
      ElemDepth(sch, t);
      ElemSlotsIn(sch, mem, f, ElemType(t), counts, ElemCount(t, counts), a, rel);
    } else {
      ElemSizeIs(sch, t, counts);
      if t.Subformat? {
        FieldSlotsIn(sch, mem, t.index, 0, a, rel);
      }
    }
  }

  lemma {:induction false} ElemSlotsIn(sch: Schema, mem: seq<byte>, f: nat, e: Type, counts: seq<nat>, n: nat, a: nat, rel: nat)
    requires ValidSchema(sch) && f < |sch| && ValidType(sch, f, e, false) && !e.Array?
    ensures SlotsIn(sch, ElemSlots(sch, mem, f, e, counts, n, a, rel), rel, rel + n * ElemSize(sch, e))
    decreases ByValueDepth(sch, e), 0, Height(e), n + 1
  {
    if n > 0 {
      var z := ElemSize(sch, e);
      TypeSlotsIn(sch, mem, f, e, counts, a, rel);
      ElemSlotsIn(sch, mem, f, e, counts, n - 1, a + z, rel + z);
      MulStep(n, z);
      ElemSizeIs(sch, e, counts);
      SlotsInAppend(sch, TypeSlots(sch, mem, f, e, counts, a, rel), ElemSlots(sch, mem, f, e, counts, n - 1, a + z, rel + z),
                    rel, rel + z, rel + z, rel + n * z);
    }
  }

  /** Where the fields from i on begin. */
  function FieldStart(sch: Schema, f: nat, i: nat): nat
    requires f < |sch| && i <= |sch[f].fields|
  {
    if i == |sch[f].fields| then sch[f].recordLength else sch[f].fields[i].offset
  }

  lemma FieldSize(sch: Schema, f: nat, i: nat, counts: seq<nat>)
    requires ValidSchema(sch) && f < |sch| && i < |sch[f].fields|
    ensures Size(sch, sch[f].fields[i].typ, counts) == Extent(sch, sch[f].fields[i])
    ensures sch[f].fields[i].offset + Extent(sch, sch[f].fields[i]) <= FieldStart(sch, f, i + 1)
  {
    assert ValidFormat(sch, f);
    StaticCounts(sch, f, sch[f].fields[i].typ, counts, []);
  }

  lemma {:induction false} FieldSlotsIn(sch: Schema, mem: seq<byte>, f: nat, i: nat, a: nat, rel: nat)
    requires ValidSchema(sch) && f < |sch| && i <= |sch[f].fields|
    ensures SlotsIn(sch, FieldSlots(sch, mem, f, i, a, rel), rel + FieldStart(sch, f, i), rel + sch[f].recordLength)
    decreases sch[f].level, 1, |sch[f].fields| - i, 0
  {
    if i < |sch[f].fields| {
      var fd := sch[f].fields[i];
      assert ValidFormat(sch, f);
      ByValueValid(sch, f, fd.typ);
      ByValueDepthOk(sch, f, fd.typ);
      FieldSize(sch, f, i, Counts(sch, f, mem, a));
      TypeSlotsIn(sch, mem, f, fd.typ, Counts(sch, f, mem, a), a + fd.offset, rel + fd.offset);
      FieldSlotsIn(sch, mem, f, i + 1, a, rel);
      SlotsInAppend(sch, TypeSlots(sch, mem, f, fd.typ, Counts(sch, f, mem, a), a + fd.offset, rel + fd.offset),
                    FieldSlots(sch, mem, f, i + 1, a, rel),
                    rel + fd.offset, rel + fd.offset + Extent(sch, fd), rel + FieldStart(sch, f, i + 1), rel + sch[f].recordLength);
    }
  }

  lemma TargetSlotsIn(sch: Schema, mem: seq<byte>, p: nat, t: Target)
    requires ValidSchema(sch) && ValidTarget(sch, t)
    ensures SlotsIn(sch, TargetSlots(sch, mem, p, t), 0, TargetSize(sch, mem, p, t))
  {
    if t.Data? {
      TypeSlotsIn(sch, mem, t.format, t.typ, [], p, 0);
    } else if t.Record? {
      FieldSlotsIn(sch, mem, t.format, 0, p, 0);
    }
  }

  // ----- following untracked pointers descends in the type graph

  function TargetRank(sch: Schema, t: Target): nat {
    if t.Data? && t.format < |sch| then sch[t.format].level + Height(t.typ) else 0
  }

  predicate Descends(s: Slot) {
    !s.tracked && s.target.Data?
  }

  /** One more than the rank of the deepest target reachable through an untracked slot. */
  function MaxRank(sch: Schema, s: seq<Slot>): (r: nat)
    ensures forall i :: 0 <= i < |s| && Descends(s[i]) ==> TargetRank(sch, s[i].target) < r
  {
    if s == [] then 0
    else
      var rest := MaxRank(sch, s[1..]);
      assert forall i :: 1 <= i < |s| ==> s[i] == s[1..][i - 1];
      if !Descends(s[0]) then rest else
        var r0 := TargetRank(sch, s[0].target) + 1;
        if r0 > rest then r0 else rest
  }

  ghost predicate RankAtMost(sch: Schema, s: seq<Slot>, b: nat)
  {
    forall i :: 0 <= i < |s| && Descends(s[i]) ==> TargetRank(sch, s[i].target) < b
  }

  lemma {:induction false} MaxRankLeast(sch: Schema, s: seq<Slot>, b: nat)
    requires RankAtMost(sch, s, b)
    ensures MaxRank(sch, s) <= b
  {
    if s != [] {
      assert forall i :: 1 <= i < |s| ==> s[i] == s[1..][i - 1];
      MaxRankLeast(sch, s[1..], b);
      assert Descends(s[0]) ==> TargetRank(sch, s[0].target) < b;
    }
  }

  lemma RankOfOne(sch: Schema, s: Slot)
    requires Descends(s)
    ensures TargetRank(sch, s.target) < MaxRank(sch, [s])
  {
    assert [s][0] == s;
  }

  lemma MaxRankConcat(sch: Schema, x: seq<Slot>, y: seq<Slot>)
    ensures MaxRank(sch, x) <= MaxRank(sch, x + y)
    ensures MaxRank(sch, y) <= MaxRank(sch, x + y)
  {
    assert forall i :: 0 <= i < |x| ==> x[i] == (x + y)[i];
    assert forall i :: 0 <= i < |y| ==> y[i] == (x + y)[|x| + i];
    MaxRankLeast(sch, x, MaxRank(sch, x + y));
    MaxRankLeast(sch, y, MaxRank(sch, x + y));
  }

  lemma {:induction false} TypeSlotsRank(sch: Schema, mem: seq<byte>, f: nat, t: Type, counts: seq<nat>, a: nat, rel: nat)
    requires ValidSchema(sch) && f < |sch| && ValidType(sch, f, t, false)
    requires !sch[f].recursive || ValidType(sch, f, t, true)
    ensures SlotsIn(sch, TypeSlots(sch, mem, f, t, counts, a, rel), rel, rel + Size(sch, t, counts))
    ensures RankAtMost(sch, TypeSlots(sch, mem, f, t, counts, a, rel), sch[f].level + Height(t))
    decreases ByValueDepth(sch, t), 0, Height(t), 0
  {
    TypeSlotsIn(sch, mem, f, t, counts, a, rel);
    match t
    case Array(_, _) =>
      ElemTypeValid(sch, f, t, false);
      if sch[f].recursive { ElemTypeValid(sch, f, t, true); }
      ElemDepth(sch, t);
      ElemSlotsRank(sch, mem, f, ElemType(t), counts, ElemCount(t, counts), a, rel);
    case Subformat(g) =>
      assert Below(sch, g, f);
      FieldSlotsRank(sch, mem, g, 0, a, rel, sch[f].level);
    case _ =>
  }

  lemma {:induction false} ElemSlotsRank(sch: Schema, mem: seq<byte>, f: nat, e: Type, counts: seq<nat>, n: nat, a: nat, rel: nat)
    requires ValidSchema(sch) && f < |sch| && ValidType(sch, f, e, false) && !e.Array?
    requires !sch[f].recursive || ValidType(sch, f, e, true)
    ensures SlotsIn(sch, ElemSlots(sch, mem, f, e, counts, n, a, rel), rel, rel + n * ElemSize(sch, e))
    ensures RankAtMost(sch, ElemSlots(sch, mem, f, e, counts, n, a, rel), sch[f].level + Height(e))
    decreases ByValueDepth(sch, e), 0, Height(e), n + 1
  {
    ElemSlotsIn(sch, mem, f, e, counts, n, a, rel);
    if n > 0 {
      var z := ElemSize(sch, e);
      TypeSlotsRank(sch, mem, f, e, counts, a, rel);
      ElemSlotsRank(sch, mem, f, e, counts, n - 1, a + z, rel + z);
    }
  }

  lemma {:induction false} FieldSlotsRank(sch: Schema, mem: seq<byte>, f: nat, i: nat, a: nat, rel: nat, b: nat)
    requires ValidSchema(sch) && f < |sch| && i <= |sch[f].fields|
    requires forall k :: 0 <= k < |sch[f].fields| ==> sch[f].level + Height(sch[f].fields[k].typ) <= b
    ensures SlotsIn(sch, FieldSlots(sch, mem, f, i, a, rel), rel + FieldStart(sch, f, i), rel + sch[f].recordLength)
    ensures RankAtMost(sch, FieldSlots(sch, mem, f, i, a, rel), b)
    decreases sch[f].level, 1, |sch[f].fields| - i, 0
  {
    FieldSlotsIn(sch, mem, f, i, a, rel);
    if i < |sch[f].fields| {
      var fd := sch[f].fields[i];
      assert ValidFormat(sch, f);
      ByValueValid(sch, f, fd.typ);
      ByValueDepthOk(sch, f, fd.typ);
      TypeSlotsRank(sch, mem, f, fd.typ, Counts(sch, f, mem, a), a + fd.offset, rel + fd.offset);
      FieldSlotsRank(sch, mem, f, i + 1, a, rel, b);
    }
  }

  lemma TargetSlotsRank(sch: Schema, mem: seq<byte>, p: nat, t: Target)
    requires ValidSchema(sch) && ValidTarget(sch, t) && !t.Record?
    requires t.Data? ==> !sch[t.format].recursive
    ensures SlotsIn(sch, TargetSlots(sch, mem, p, t), 0, TargetSize(sch, mem, p, t))
    ensures MaxRank(sch, TargetSlots(sch, mem, p, t)) <= TargetRank(sch, t)
  {
    TargetSlotsIn(sch, mem, p, t);
    if t.Data? {
      TypeSlotsRank(sch, mem, t.format, t.typ, [], p, 0);
      MaxRankLeast(sch, TargetSlots(sch, mem, p, t), TargetRank(sch, t));
    }
  }

  // ----- values judged flat by the registration flags hold no pointers

  lemma {:induction false} FlatTypeNoSlots(sch: Schema, mem: seq<byte>, f: nat, t: Type, counts: seq<nat>, a: nat, rel: nat)
    requires ValidSchema(sch) && f < |sch| && ValidType(sch, f, t, false) && IsFlat(sch, t)
    ensures TypeSlots(sch, mem, f, t, counts, a, rel) == []
    decreases ByValueDepth(sch, t), 0, Height(t), 0
  {
    match t
    case Array(_, _) =>
      ElemTypeValid(sch, f, t, false);
      ElemDepth(sch, t);
      FlatElemsNoSlots(sch, mem, f, ElemType(t), counts, ElemCount(t, counts), a, rel);
    case Subformat(g) =>
      FlatFieldsNoSlots(sch, mem, g, 0, a, rel);
    case _ =>
  }

  lemma {:induction false} FlatElemsNoSlots(sch: Schema, mem: seq<byte>, f: nat, e: Type, counts: seq<nat>, n: nat, a: nat, rel: nat)
    requires ValidSchema(sch) && f < |sch| && ValidType(sch, f, e, false) && !e.Array? && IsFlat(sch, e)
    ensures ElemSlots(sch, mem, f, e, counts, n, a, rel) == []
    decreases ByValueDepth(sch, e), 0, Height(e), n + 1
  {
    if n > 0 {
      var z := ElemSize(sch, e);
      FlatTypeNoSlots(sch, mem, f, e, counts, a, rel);
      FlatElemsNoSlots(sch, mem, f, e, counts, n - 1, a + z, rel + z);
    }
  }

  lemma {:induction false} FlatFieldsNoSlots(sch: Schema, mem: seq<byte>, f: nat, i: nat, a: nat, rel: nat)
    requires ValidSchema(sch) && f < |sch| && i <= |sch[f].fields| && !sch[f].variant
    ensures FieldSlots(sch, mem, f, i, a, rel) == []
    decreases sch[f].level, 1, |sch[f].fields| - i, 0
  {
    if i < |sch[f].fields| {
      var fd := sch[f].fields[i];
      assert ValidFormat(sch, f);
      ByValueValid(sch, f, fd.typ);
      ByValueDepthOk(sch, f, fd.typ);
      FlatTypeNoSlots(sch, mem, f, fd.typ, Counts(sch, f, mem, a), a + fd.offset, rel + fd.offset);
      FlatFieldsNoSlots(sch, mem, f, i + 1, a, rel);
    }
  }

  lemma FlatTargetNoSlots(sch: Schema, mem: seq<byte>, p: nat, t: Target)
    requires ValidSchema(sch) && ValidTarget(sch, t) && TargetFlat(sch, t)
    ensures TargetSlots(sch, mem, p, t) == []
  {
    if t.Data? {
      FlatTypeNoSlots(sch, mem, t.format, t.typ, [], p, 0);
    } else if t.Record? {
      FlatFieldsNoSlots(sch, mem, t.format, 0, p, 0);
    }
  }

  // ----- reading a copy of an object reads the object

  lemma LoadSub(x: seq<byte>, a: nat, y: seq<byte>, b: nat, n: nat, k: nat, m: nat)
    requires Load(x, a, n) == Load(y, b, n) && k + m <= n
    ensures Load(x, a + k, m) == Load(y, b + k, m)
  {
    assert Load(x, a + k, m) == Load(x, a, n)[k..k + m];
    assert Load(y, b + k, m) == Load(y, b, n)[k..k + m];
  }
}
