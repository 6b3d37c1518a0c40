/** Laying out a list of structs for this machine: rounds over the structs, each giving offsets
    and a size to those whose contained structs are already known. */
module Layout {
  import opened Variant

  /** A field's type, outermost first. An array of length 0 is one of variable length. */
  datatype TypeDesc =
    | Pointer(next: TypeDesc)
    | Array(count: nat, next: TypeDesc)
    | Text
    | Struct(index: nat)
    | Integer
    | Float

  /** The size is that of one element; what is not positive is filled in. */
  datatype Field = Field(desc: TypeDesc, size: int)

  const POINTER_SIZE := 8

  /** The field holds struct j itself, not a pointer to it. */
  predicate Holds(d: TypeDesc, j: nat) {
    match d
    case Array(_, next) => Holds(next, j)
    case Struct(k) => k == j
    case _ => false
  }

  /** Types name structs of the list; scalars held in the record come with their size. */
  predicate Known(d: TypeDesc, n: nat, size: int, held: bool) {
    match d
    case Pointer(next) => Known(next, n, size, false)
    case Array(_, next) => Known(next, n, size, held)
    case Struct(k) => k < n
    case Integer => held ==> size >= 1
    case Float => held ==> size >= 4
    case Text => true
  }

  predicate ValidList(structs: seq<seq<Field>>) {
    forall s, i :: 0 <= s < |structs| && 0 <= i < |structs[s]| ==>
      Known(structs[s][i].desc, |structs|, structs[s][i].size, true)
  }

  // ---- one field ----

  /** Alignment of a scalar on this machine. */
  function ScalarAlign(d: TypeDesc, size: int): int
    requires d.Integer? || d.Float?
  {
    if d.Integer? then
      if size == -1 then -1 else if size == 1 then 1 else if size < 4 then 2 else if size < 8 then 4 else 8
    else
      if size == -1 then -1 else if size < 4 then size else if size < 8 then 4 else if size < 16 then 8 else 16
  }

  function AlignReq(d: TypeDesc, size: int, align: seq<int>): int
    requires Known(d, |align|, size, true)
  {
    match d
    case Array(_, next) => AlignReq(next, size, align)
    case Struct(k) => align[k]
    case Integer => ScalarAlign(d, size)
    case Float => ScalarAlign(d, size)
    case _ => POINTER_SIZE
  }

  /** Bytes of one element at the end of the type. */
  function ElementSize(d: TypeDesc, size: int, sizes: seq<int>): int
    requires Known(d, |sizes|, size, false)
  {
    match d
    case Pointer(next) => ElementSize(next, size, sizes)
    case Array(_, next) => ElementSize(next, size, sizes)
    case Text => POINTER_SIZE
    case Struct(k) => sizes[k]
    case Integer => if size <= 0 then 4 else size
    case Float => if size <= 0 then 8 else size
  }

  function Times(count: nat): (n: nat)
    ensures n >= 1
  {
    if count > 0 then count else 1
  }

  /** Bytes the field takes in the record. */
  function ActualSize(d: TypeDesc, size: int, sizes: seq<int>): int
    requires Known(d, |sizes|, size, true)
  {
    match d
    case Pointer(_) => POINTER_SIZE
    case Array(count, next) => Times(count) * ActualSize(next, size, sizes)
    case Text => POINTER_SIZE
    case Struct(k) => sizes[k]
    case Integer => if size <= 0 then 4 else size
    case Float => if size <= 0 then 8 else size
  }

  lemma {:induction false} Weaker(d: TypeDesc, n: nat, size: int)
    requires Known(d, n, size, true)
    ensures Known(d, n, size, false)
  {
    match d {
      case Array(_, next) => Weaker(next, n, size);
      case _ =>
    }
  }

  method TypeAlignment(d: TypeDesc, size: int, align: array<int>) returns (req: int)
    requires Known(d, align.Length, size, true)
    ensures req == AlignReq(d, size, align[..])
  {
    var t := d;
    while t.Array?
      invariant Known(t, align.Length, size, true) && AlignReq(t, size, align[..]) == AlignReq(d, size, align[..])
      decreases t
    {
      t := t.next;
    }
    match t {
      case Struct(k) => req := align[k];
      case Integer => req := ScalarAlign(t, size);
      case Float => req := ScalarAlign(t, size);
      case _ => req := POINTER_SIZE;
    }
  }

  lemma TimesAssociates(a: int, b: int, c: int)
    ensures a * (b * c) == a * b * c
  {
  }

  method DetermineActualSize(d: TypeDesc, size: int, sizes: array<int>) returns (bytes: int)
    requires Known(d, sizes.Length, size, true)
    ensures bytes == ActualSize(d, size, sizes[..])
  {
    var t, arraySize := d, 1;
    while t.Array?
      invariant Known(t, sizes.Length, size, true)
      invariant arraySize * ActualSize(t, size, sizes[..]) == ActualSize(d, size, sizes[..])
      decreases t
    {
      TimesAssociates(arraySize, Times(t.count), ActualSize(t.next, size, sizes[..]));
      if t.count > 0 {
        arraySize := arraySize * t.count;
      }
      t := t.next;
    }
    var element: int;
    match t {
      case Struct(k) => element := sizes[k];
      case Integer => element := if size <= 0 then 4 else size;
      case Float => element := if size <= 0 then 8 else size;
      case _ => element := POINTER_SIZE;
    }
    bytes := element * arraySize;
  }

  method DetermineElementSize(d: TypeDesc, size: int, sizes: array<int>) returns (bytes: int)
    requires Known(d, sizes.Length, size, false)
    ensures bytes == ElementSize(d, size, sizes[..])
  {
    var t := d;
    while t.Pointer? || t.Array?
      invariant Known(t, sizes.Length, size, false) && ElementSize(t, size, sizes[..]) == ElementSize(d, size, sizes[..])
      decreases t
    {
      t := t.next;
    }
    match t {
      case Struct(k) => bytes := sizes[k];
      case Integer => bytes := if size <= 0 then 4 else size;
      case Float => bytes := if size <= 0 then 8 else size;
      case Text => bytes := POINTER_SIZE;
    }
  }

  // ---- one struct ----

  /** The next multiple of the alignment. */
  function RoundUp(x: nat, a: int): (r: nat)
    requires PowerOf2(a)
    ensures x <= r < x + a
  {
    if a == 1 then x
    else if a == 2 then (x + 1) / 2 * 2
    else if a == 4 then (x + 3) / 4 * 4
    else if a == 8 then (x + 7) / 8 * 8
    else (x + 15) / 16 * 16
  }

  /** The two forms the rounding takes: for offsets, and as padding for the struct. */
  function AlignUp(x: int, a: int): int
    requires a > 0
  {
    (x + a - 1) / a * a
  }

  function Padding(x: int, a: int): int
    requires a > 0
  {
    -x % a
  }

  lemma RoundsUp(x: int, a: int)
    requires x >= 0 && PowerOf2(a)
    ensures AlignUp(x, a) == x + Padding(x, a) == RoundUp(x, a)
    ensures RoundUp(x, a) % a == 0 && (x % a == 0 ==> RoundUp(x, a) == x)
  {
    hide AlignUp, Padding, RoundUp;
    if a == 1 { By1(x); } else if a == 2 { By2(x); } else if a == 4 { By4(x); } else if a == 8 { By8(x); } else { By16(x); }
  }

  lemma By1(x: int)
    requires x >= 0
    ensures AlignUp(x, 1) == x + Padding(x, 1) == RoundUp(x, 1) == x
  {
  }

  lemma By2(x: int)
    requires x >= 0
    ensures AlignUp(x, 2) == x + Padding(x, 2) == RoundUp(x, 2) && RoundUp(x, 2) % 2 == 0 && (x % 2 == 0 ==> RoundUp(x, 2) == x)
  {
  }

  lemma By4(x: int)
    requires x >= 0
    ensures AlignUp(x, 4) == x + Padding(x, 4) == RoundUp(x, 4) && RoundUp(x, 4) % 4 == 0 && (x % 4 == 0 ==> RoundUp(x, 4) == x)
  {
    var r := x % 4;
    assert -x % 4 == if r == 0 then 0 else 4 - r;
    assert (x + 3) / 4 == if r == 0 then x / 4 else x / 4 + 1;
  }

  lemma By8(x: int)
    requires x >= 0
    ensures AlignUp(x, 8) == x + Padding(x, 8) == RoundUp(x, 8) && RoundUp(x, 8) % 8 == 0 && (x % 8 == 0 ==> RoundUp(x, 8) == x)
  {
    var r := x % 8;
    assert -x % 8 == if r == 0 then 0 else 8 - r;
    assert (x + 7) / 8 == if r == 0 then x / 8 else x / 8 + 1;
  }

  lemma By16(x: int)
    requires x >= 0
    ensures AlignUp(x, 16) == x + Padding(x, 16) == RoundUp(x, 16) && RoundUp(x, 16) % 16 == 0 && (x % 16 == 0 ==> RoundUp(x, 16) == x)
  {
    var r := x % 16;
    assert -x % 16 == if r == 0 then 0 else 16 - r;
    assert (x + 15) / 16 == if r == 0 then x / 16 else x / 16 + 1;
  }

  predicate PowerOf2(a: int) {
    a == 1 || a == 2 || a == 4 || a == 8 || a == 16
  }

  /** The state of the rounds: what is known of every struct; -1 is unknown. */
  ghost predicate Shape(structs: seq<seq<Field>>, sizes: seq<int>, align: seq<int>) {
    && ValidList(structs) && |sizes| == |align| == |structs|
    && (forall s :: 0 <= s < |structs| ==> sizes[s] >= -1 && sizes[s] != 0)
    && (forall s :: 0 <= s < |structs| ==> align[s] == -1 || PowerOf2(align[s]))
    && (forall s :: 0 <= s < |structs| && sizes[s] > 0 ==> align[s] > 0)
  }

  function Req(structs: seq<seq<Field>>, s: nat, i: nat, align: seq<int>): int
    requires ValidList(structs) && |align| == |structs| && s < |structs| && i < |structs[s]|
  {
    AlignReq(structs[s][i].desc, structs[s][i].size, align)
  }

  function Actual(structs: seq<seq<Field>>, s: nat, i: nat, sizes: seq<int>): int
    requires ValidList(structs) && |sizes| == |structs| && s < |structs| && i < |structs[s]|
  {
    ActualSize(structs[s][i].desc, structs[s][i].size, sizes)
  }

  /** All that the first fields of a struct hold has a size. */
  ghost predicate KnownTo(structs: seq<seq<Field>>, s: nat, i: nat, sizes: seq<int>)
    requires ValidList(structs) && |sizes| == |structs| && s < |structs| && i <= |structs[s]|
  {
    forall f :: 0 <= f < i ==> Actual(structs, s, f, sizes) > 0
  }

  /** Every struct the field holds has a size. */
  ghost predicate HoldsSized(d: TypeDesc, sizes: seq<int>) {
    forall j: nat :: Holds(d, j) ==> j < |sizes| && sizes[j] > 0
  }

  /** A field has a size exactly when the structs it holds do; it then has an alignment. */
  lemma {:induction false} SizedField(d: TypeDesc, size: int, structs: seq<seq<Field>>, sizes: seq<int>, align: seq<int>)
    requires Shape(structs, sizes, align) && Known(d, |structs|, size, true)
    ensures ActualSize(d, size, sizes) > 0 <==> HoldsSized(d, sizes)
    ensures ActualSize(d, size, sizes) > 0 ==> PowerOf2(AlignReq(d, size, align))
    ensures AlignReq(d, size, align) == -1 || PowerOf2(AlignReq(d, size, align))
  {
    match d {
      case Array(count, next) =>
        SizedField(next, size, structs, sizes, align);
        SignKept(Times(count), ActualSize(next, size, sizes));
        assert HoldsSized(d, sizes) <==> HoldsSized(next, sizes) by {
          assert forall j: nat :: Holds(d, j) == Holds(next, j);
        }
      case Struct(k) => assert Holds(d, k);
      case _ =>
    }
  }

  lemma SignKept(n: nat, x: int)
    requires n >= 1
    ensures n * x > 0 <==> x > 0
  {
    if x <= 0 {
      assert n * x == -(n * -x);
    }
  }

  /** Where field i starts and where it ends, by the rule of the C language. */
  function StartOf(structs: seq<seq<Field>>, s: nat, i: nat, sizes: seq<int>, align: seq<int>): nat
    requires ValidList(structs) && |sizes| == |align| == |structs| && s < |structs| && i < |structs[s]|
    requires KnownTo(structs, s, i, sizes) && AlignedTo(structs, s, i + 1, align)
    decreases i, 1
  {
    RoundUp(EndOf(structs, s, i, sizes, align), Req(structs, s, i, align))
  }

  function EndOf(structs: seq<seq<Field>>, s: nat, i: nat, sizes: seq<int>, align: seq<int>): nat
    requires ValidList(structs) && |sizes| == |align| == |structs| && s < |structs| && i <= |structs[s]|
    requires KnownTo(structs, s, i, sizes) && AlignedTo(structs, s, i, align)
    decreases i, 0
  {
    if i == 0 then 0 else StartOf(structs, s, i - 1, sizes, align) + Actual(structs, s, i - 1, sizes)
  }

  ghost predicate AlignedTo(structs: seq<seq<Field>>, s: nat, i: nat, align: seq<int>)
    requires ValidList(structs) && |align| == |structs| && s < |structs| && i <= |structs[s]|
  {
    forall f :: 0 <= f < i ==> PowerOf2(Req(structs, s, f, align))
  }

  /** The struct's layout follows from those of the structs it holds: the strictest alignment
      of its fields, every field at the next aligned place, and padding at the end. */
  ghost predicate Settled(structs: seq<seq<Field>>, s: nat, sizes: seq<int>, align: seq<int>, offs: seq<seq<int>>)
    requires ValidList(structs) && |sizes| == |align| == |offs| == |structs| && s < |structs|
  {
    var n := |structs[s]|;
    && n > 0 && KnownTo(structs, s, n, sizes) && AlignedTo(structs, s, n, align)
    && |offs[s]| == n && (forall i :: 0 <= i < n ==> offs[s][i] == StartOf(structs, s, i, sizes, align))
    && PowerOf2(align[s]) && (forall i :: 0 <= i < n ==> Req(structs, s, i, align) <= align[s])
    && (exists i :: 0 <= i < n && Req(structs, s, i, align) == align[s])
    && sizes[s] == RoundUp(EndOf(structs, s, n, sizes, align), align[s])
  }

  // ---- what a pass keeps ----

  /** Nothing known of a struct changes; alignments only grow. */
  ghost predicate Keeps(sizes: seq<int>, align: seq<int>, sizes2: seq<int>, align2: seq<int>) {
    && |sizes| == |sizes2| == |align| == |align2|
    && (forall s :: 0 <= s < |sizes| ==> align[s] <= align2[s])
    && (forall s :: 0 <= s < |sizes| && sizes[s] > 0 ==> sizes2[s] == sizes[s] && align2[s] == align[s])
  }

  lemma {:induction false} KeepsField(d: TypeDesc, size: int, structs: seq<seq<Field>>, sizes: seq<int>, align: seq<int>,
                                      sizes2: seq<int>, align2: seq<int>)
    requires Shape(structs, sizes, align) && Shape(structs, sizes2, align2) && Keeps(sizes, align, sizes2, align2)
    requires Known(d, |structs|, size, true)
    ensures AlignReq(d, size, align) <= AlignReq(d, size, align2)
    ensures ActualSize(d, size, sizes) > 0 ==>
      ActualSize(d, size, sizes2) == ActualSize(d, size, sizes) && AlignReq(d, size, align2) == AlignReq(d, size, align)
  {
    match d {
      case Array(count, next) =>
        SignKept(Times(count), ActualSize(next, size, sizes));
        KeepsField(next, size, structs, sizes, align, sizes2, align2);
      case _ =>
    }
  }

  lemma {:induction false} KeepsEnd(structs: seq<seq<Field>>, s: nat, i: nat, sizes: seq<int>, align: seq<int>,
                                    sizes2: seq<int>, align2: seq<int>)
    requires Shape(structs, sizes, align) && Shape(structs, sizes2, align2) && Keeps(sizes, align, sizes2, align2)
    requires s < |structs| && i <= |structs[s]| && KnownTo(structs, s, i, sizes) && AlignedTo(structs, s, i, align)
    ensures KnownTo(structs, s, i, sizes2) && AlignedTo(structs, s, i, align2)
    ensures EndOf(structs, s, i, sizes2, align2) == EndOf(structs, s, i, sizes, align)
    ensures forall f :: 0 <= f < i ==> Req(structs, s, f, align2) == Req(structs, s, f, align)
    ensures forall f :: 0 <= f < i ==> StartOf(structs, s, f, sizes2, align2) == StartOf(structs, s, f, sizes, align)
  {
    if i > 0 {
      KeepsEnd(structs, s, i - 1, sizes, align, sizes2, align2);
      var field := structs[s][i - 1];
      assert Actual(structs, s, i - 1, sizes) > 0;
      KeepsField(field.desc, field.size, structs, sizes, align, sizes2, align2);
      assert Req(structs, s, i - 1, align2) == Req(structs, s, i - 1, align);
    }
  }

  lemma KeepsSettled(structs: seq<seq<Field>>, s: nat, sizes: seq<int>, align: seq<int>, offs: seq<seq<int>>,
                     sizes2: seq<int>, align2: seq<int>, offs2: seq<seq<int>>)
    requires Shape(structs, sizes, align) && Shape(structs, sizes2, align2) && Keeps(sizes, align, sizes2, align2)
    requires |offs| == |offs2| == |structs| && s < |structs| && sizes[s] > 0 && offs2[s] == offs[s]
    requires Settled(structs, s, sizes, align, offs)
    ensures Settled(structs, s, sizes2, align2, offs2)
  {
    var n := |structs[s]|;
    KeepsEnd(structs, s, n, sizes, align, sizes2, align2);
    var i :| 0 <= i < n && Req(structs, s, i, align) == align[s];
    assert Req(structs, s, i, align2) == align2[s];
  }

  // ---- which structs can be laid out ----

  /** Everything the struct holds by value, at any depth, has fields of its own and ends. */
  ghost predicate Grounded(structs: seq<seq<Field>>, s: nat, k: nat)
    decreases k
  {
    && s < |structs| && |structs[s]| > 0 && k > 0
    && forall i, j: nat :: 0 <= i < |structs[s]| && Holds(structs[s][i].desc, j) ==> Grounded(structs, j, k - 1)
  }

  ghost predicate CanLayOut(structs: seq<seq<Field>>, s: nat) {
    exists k: nat :: Grounded(structs, s, k)
  }

  lemma {:induction false} Deeper(structs: seq<seq<Field>>, s: nat, k: nat, m: nat)
    requires Grounded(structs, s, k) && k <= m
    ensures Grounded(structs, s, m)
    decreases k
  {
    forall i, j: nat | 0 <= i < |structs[s]| && Holds(structs[s][i].desc, j)
      ensures Grounded(structs, j, m - 1)
    {
      Deeper(structs, j, k - 1, m - 1);
    }
  }

  /** What holds only sized structs can be laid out, if sized structs can. */
  ghost predicate SizedCan(structs: seq<seq<Field>>, sizes: seq<int>) {
    |sizes| == |structs| && forall s :: 0 <= s < |sizes| && sizes[s] > 0 ==> CanLayOut(structs, s)
  }

  lemma {:induction false} CommonDepth(structs: seq<seq<Field>>, sizes: seq<int>, n: nat) returns (k: nat)
    requires SizedCan(structs, sizes) && n <= |sizes|
    ensures forall s :: 0 <= s < n && sizes[s] > 0 ==> Grounded(structs, s, k)
  {
    if n == 0 {
      k := 0;
    } else {
      var k0 := CommonDepth(structs, sizes, n - 1);
      k := k0;
      if sizes[n - 1] > 0 {
        var k1: nat :| Grounded(structs, n - 1, k1);
        k := k0 + k1;
        Deeper(structs, n - 1, k1, k);
      }
      forall s | 0 <= s < n - 1 && sizes[s] > 0
        ensures Grounded(structs, s, k)
      {
        Deeper(structs, s, k0, k);
      }
    }
  }

  /** The struct has fields and all it holds has a size. */
  ghost predicate Ready(structs: seq<seq<Field>>, s: nat, sizes: seq<int>) {
    && s < |structs| && |structs[s]| > 0
    && forall i :: 0 <= i < |structs[s]| ==> HoldsSized(structs[s][i].desc, sizes)
  }

  lemma ReadyCan(structs: seq<seq<Field>>, s: nat, sizes: seq<int>)
    requires SizedCan(structs, sizes) && Ready(structs, s, sizes)
    ensures CanLayOut(structs, s)
  {
    var k := CommonDepth(structs, sizes, |sizes|);
    forall i, j: nat | 0 <= i < |structs[s]| && Holds(structs[s][i].desc, j)
      ensures Grounded(structs, j, k)
    {
      assert HoldsSized(structs[s][i].desc, sizes);
    }
    assert Grounded(structs, s, k + 1);
  }

  /** While a struct that can be laid out has no size, one of those is ready. */
  lemma {:induction false} SomeReady(structs: seq<seq<Field>>, s: nat, k: nat, sizes: seq<int>) returns (r: nat)
    requires |sizes| == |structs| && Grounded(structs, s, k) && sizes[s] <= 0
    ensures r < |structs| && Ready(structs, r, sizes) && sizes[r] <= 0
    decreases k
  {
    if Ready(structs, s, sizes) {
      r := s;
    } else {
      var i :| 0 <= i < |structs[s]| && !HoldsSized(structs[s][i].desc, sizes);
      var j: nat :| Holds(structs[s][i].desc, j) && !(j < |sizes| && sizes[j] > 0);
      assert Grounded(structs, j, k - 1);
      r := SomeReady(structs, j, k - 1, sizes);
    }
  }

  ghost predicate AllDone(structs: seq<seq<Field>>, sizes: seq<int>) {
    |sizes| == |structs| && forall s :: 0 <= s < |sizes| && CanLayOut(structs, s) ==> sizes[s] > 0
  }

  // ---- the rounds ----

  /** The alignment found so far is that of some field, or less. */
  ghost predicate Bounded(structs: seq<seq<Field>>, s: nat, align: seq<int>)
    requires ValidList(structs) && |align| == |structs| && s < |structs|
  {
    align[s] == -1 || exists i :: 0 <= i < |structs[s]| && align[s] <= Req(structs, s, i, align)
  }

  /** A given size stays; another is not known yet or follows from the sizes of the structs. */
  ghost predicate SizeOk(field: Field, f: int, sizes: seq<int>)
    requires Known(field.desc, |sizes|, field.size, false)
  {
    if field.size > 0 then f == field.size else f <= 0 || f == ElementSize(field.desc, field.size, sizes)
  }

  ghost predicate FieldSizes(structs: seq<seq<Field>>, s: nat, fsz: seq<int>, sizes: seq<int>)
    requires ValidList(structs) && |sizes| == |structs| && s < |structs|
  {
    |fsz| == |structs[s]| && forall i :: 0 <= i < |fsz| ==>
      (Weaker(structs[s][i].desc, |structs|, structs[s][i].size); SizeOk(structs[s][i], fsz[i], sizes))
  }

  ghost predicate Inv(structs: seq<seq<Field>>, sizes: seq<int>, align: seq<int>, offs: seq<seq<int>>, fsz: seq<seq<int>>) {
    && Shape(structs, sizes, align) && |offs| == |fsz| == |structs| && SizedCan(structs, sizes)
    && forall s :: 0 <= s < |structs| ==>
      && |offs[s]| == |structs[s]| && FieldSizes(structs, s, fsz[s], sizes) && Bounded(structs, s, align)
      && (sizes[s] > 0 ==> Settled(structs, s, sizes, align, offs))
  }

  lemma {:induction false} KeepsElement(d: TypeDesc, size: int, structs: seq<seq<Field>>, sizes: seq<int>, align: seq<int>,
                                        sizes2: seq<int>, align2: seq<int>)
    requires Shape(structs, sizes, align) && Shape(structs, sizes2, align2) && Keeps(sizes, align, sizes2, align2)
    requires Known(d, |structs|, size, false)
    ensures ElementSize(d, size, sizes) > 0 ==> ElementSize(d, size, sizes2) == ElementSize(d, size, sizes)
  {
    match d {
      case Array(count, next) => KeepsElement(next, size, structs, sizes, align, sizes2, align2);
      case Pointer(next) => KeepsElement(next, size, structs, sizes, align, sizes2, align2);
      case _ =>
    }
  }

  lemma KeepsSizes(structs: seq<seq<Field>>, s: nat, fsz: seq<int>, sizes: seq<int>, align: seq<int>, sizes2: seq<int>, align2: seq<int>)
    requires Shape(structs, sizes, align) && Shape(structs, sizes2, align2) && Keeps(sizes, align, sizes2, align2)
    requires s < |structs| && FieldSizes(structs, s, fsz, sizes)
    ensures FieldSizes(structs, s, fsz, sizes2)
  {
    forall i | 0 <= i < |fsz|
      ensures Known(structs[s][i].desc, |structs|, structs[s][i].size, false) && SizeOk(structs[s][i], fsz[i], sizes2)
    {
      Weaker(structs[s][i].desc, |structs|, structs[s][i].size);
      KeepsElement(structs[s][i].desc, structs[s][i].size, structs, sizes, align, sizes2, align2);
    }
  }

  /** The size in the field list, filled in or not, gives the same alignment and bytes. */
  lemma {:induction false} SameField(d: TypeDesc, size: int, f: int, sizes: seq<int>, align: seq<int>, held: bool)
    requires |sizes| == |align| && Known(d, |sizes|, size, held) && (size > 0 ==> f == size)
    ensures Known(d, |sizes|, f, held)
    ensures held ==> AlignReq(d, f, align) == AlignReq(d, size, align) && ActualSize(d, f, sizes) == ActualSize(d, size, sizes)
    ensures !held && (f <= 0 || size > 0) ==> ElementSize(d, f, sizes) == ElementSize(d, size, sizes)
  {
    match d {
      case Array(count, next) => SameField(next, size, f, sizes, align, held);
      case Pointer(next) => SameField(next, size, f, sizes, align, false);
      case _ =>
    }
  }

  /** What the pass knows after i fields of struct s, none of them without a size. */
  ghost predicate Laid(structs: seq<seq<Field>>, s: nat, i: nat, offset: int, sizes: seq<int>, align: seq<int>, off: seq<int>)
    requires ValidList(structs) && |sizes| == |align| == |structs| && s < |structs| && i <= |structs[s]| <= |off|
  {
    && KnownTo(structs, s, i, sizes) && AlignedTo(structs, s, i, align)
    && offset == EndOf(structs, s, i, sizes, align)
    && (forall f :: 0 <= f < i ==> off[f] == StartOf(structs, s, f, sizes, align))
    && (forall f :: 0 <= f < i ==> Req(structs, s, f, align) <= align[s])
  }

  /** Raising the alignment of a struct without a size leaves what is known. */
  lemma Raised(structs: seq<seq<Field>>, s: nat, i: nat, offset: int, sizes: seq<int>, align: seq<int>, off: seq<int>, req: int)
    requires Shape(structs, sizes, align) && s < |structs| && i < |structs[s]| <= |off| && req == Req(structs, s, i, align)
    requires forall t :: 0 <= t < |structs| ==> Bounded(structs, t, align)
    requires req > align[s] && sizes[s] <= 0
    ensures var align2 := align[s := req];
      && Shape(structs, sizes, align2) && Keeps(sizes, align, sizes, align2) && Req(structs, s, i, align2) >= req
      && (forall t :: 0 <= t < |structs| ==> Bounded(structs, t, align2))
      && (Laid(structs, s, i, offset, sizes, align, off) ==> Laid(structs, s, i, offset, sizes, align2, off))
      && (Actual(structs, s, i, sizes) > 0 ==> Req(structs, s, i, align2) == req)
  {
    hide Laid, KnownTo, AlignedTo, EndOf, StartOf;
    var align2, field := align[s := req], structs[s][i];
    SizedField(field.desc, field.size, structs, sizes, align);
    KeepsField(field.desc, field.size, structs, sizes, align, sizes, align2);
    forall t | 0 <= t < |structs|
      ensures Bounded(structs, t, align2)
    {
      StillBounded(structs, t, sizes, align, align2, i);
    }
    if Laid(structs, s, i, offset, sizes, align, off) {
      StillLaid(structs, s, i, offset, sizes, align, sizes, align2, off);
    }
  }

  lemma KeepsReq(structs: seq<seq<Field>>, t: nat, f: nat, sizes: seq<int>, align: seq<int>, align2: seq<int>)
    requires Shape(structs, sizes, align) && Shape(structs, sizes, align2) && Keeps(sizes, align, sizes, align2)
    requires t < |structs| && f < |structs[t]|
    ensures Req(structs, t, f, align) <= Req(structs, t, f, align2)
  {
    KeepsField(structs[t][f].desc, structs[t][f].size, structs, sizes, align, sizes, align2);
  }

  lemma StillBounded(structs: seq<seq<Field>>, t: nat, sizes: seq<int>, align: seq<int>, align2: seq<int>, i: nat)
    requires Shape(structs, sizes, align) && Shape(structs, sizes, align2) && Keeps(sizes, align, sizes, align2)
    requires t < |structs| && Bounded(structs, t, align)
    requires align2[t] == align[t] || (i < |structs[t]| && align2[t] <= Req(structs, t, i, align))
    ensures Bounded(structs, t, align2)
  {
    if align2[t] != -1 {
      var f :| 0 <= f < |structs[t]| && align2[t] <= Req(structs, t, f, align);
      KeepsReq(structs, t, f, sizes, align, align2);
    }
  }

  lemma StillLaid(structs: seq<seq<Field>>, s: nat, i: nat, offset: int, sizes: seq<int>, align: seq<int>,
                  sizes2: seq<int>, align2: seq<int>, off: seq<int>)
    requires Shape(structs, sizes, align) && Shape(structs, sizes2, align2) && Keeps(sizes, align, sizes2, align2)
    requires s < |structs| && i <= |structs[s]| <= |off| && Laid(structs, s, i, offset, sizes, align, off)
    ensures Laid(structs, s, i, offset, sizes2, align2, off)
  {
    KeepsEnd(structs, s, i, sizes, align, sizes2, align2);
  }

  /** One more field. */
  lemma NextField(structs: seq<seq<Field>>, s: nat, i: nat, offset: int, sizes: seq<int>, align: seq<int>, off: seq<int>, req: int)
    requires Shape(structs, sizes, align) && s < |structs| && i < |structs[s]| <= |off|
    requires req == Req(structs, s, i, align) <= align[s] && Actual(structs, s, i, sizes) > 0
    requires Laid(structs, s, i, offset, sizes, align, off)
    ensures PowerOf2(req) && offset >= 0 && AlignUp(offset, req) >= 0
    ensures var at := AlignUp(offset, req);
      Laid(structs, s, i + 1, at + Actual(structs, s, i, sizes), sizes, align, off[i := at])
  {
    hide AlignUp, RoundUp, Actual, Req;
    var field := structs[s][i];
    FieldAlign(structs, s, i, sizes, align);
    RoundsUp(offset, req);
    var at := AlignUp(offset, req);
    KnownOneMore(structs, s, i, sizes, align);
    assert at == StartOf(structs, s, i, sizes, align);
  }

  lemma FieldAlign(structs: seq<seq<Field>>, s: nat, i: nat, sizes: seq<int>, align: seq<int>)
    requires Shape(structs, sizes, align) && s < |structs| && i < |structs[s]|
    ensures Actual(structs, s, i, sizes) > 0 <==> HoldsSized(structs[s][i].desc, sizes)
    ensures Actual(structs, s, i, sizes) > 0 ==> PowerOf2(Req(structs, s, i, align))
    ensures Req(structs, s, i, align) == -1 || PowerOf2(Req(structs, s, i, align))
  {
    SizedField(structs[s][i].desc, structs[s][i].size, structs, sizes, align);
  }

  lemma KnownOneMore(structs: seq<seq<Field>>, s: nat, i: nat, sizes: seq<int>, align: seq<int>)
    requires Shape(structs, sizes, align) && s < |structs| && i < |structs[s]|
    requires KnownTo(structs, s, i, sizes) && AlignedTo(structs, s, i, align) && Actual(structs, s, i, sizes) > 0
    ensures KnownTo(structs, s, i + 1, sizes) && AlignedTo(structs, s, i + 1, align)
  {
    FieldAlign(structs, s, i, sizes, align);
  }

  /** A settled struct has been laid out this way already. */
  lemma AlreadyLaid(structs: seq<seq<Field>>, s: nat, i: nat, offset: int, sizes: seq<int>, align: seq<int>, offs: seq<seq<int>>, req: int)
    requires Shape(structs, sizes, align) && |offs| == |structs| && s < |structs| && i < |structs[s]|
    requires Settled(structs, s, sizes, align, offs) && req == Req(structs, s, i, align)
    requires Laid(structs, s, i, offset, sizes, align, offs[s])
    ensures 0 < req <= align[s] && Actual(structs, s, i, sizes) > 0
    ensures offset >= 0 && AlignUp(offset, req) == offs[s][i]
  {
    assert Actual(structs, s, i, sizes) > 0;
    RoundsUp(offset, req);
  }

  /** With every field placed the struct gets its size; a second time it is the same. */
  lemma Closes(structs: seq<seq<Field>>, s: nat, offset: int, sizes: seq<int>, align: seq<int>, offs: seq<seq<int>>)
    requires Shape(structs, sizes, align) && |offs| == |structs| && s < |structs| && |offs[s]| == |structs[s]| > 0
    requires Laid(structs, s, |structs[s]|, offset, sizes, align, offs[s]) && Bounded(structs, s, align)
    ensures offset > 0 && PowerOf2(align[s]) && offset + Padding(offset, align[s]) > 0
    ensures sizes[s] > 0 && Settled(structs, s, sizes, align, offs) ==> sizes[s] == offset + Padding(offset, align[s])
    ensures sizes[s] <= 0 ==> var sizes2 := sizes[s := offset + Padding(offset, align[s])];
      Shape(structs, sizes2, align) && Keeps(sizes, align, sizes2, align) && Settled(structs, s, sizes2, align, offs)
  {
    hide AlignUp, Padding, RoundUp;
    var n := |structs[s]|;
    var last := n - 1;
    assert Actual(structs, s, last, sizes) > 0 && PowerOf2(Req(structs, s, last, align));
    assert align[s] > 0;
    RoundsUp(offset, align[s]);
    if sizes[s] <= 0 {
      var sizes2 := sizes[s := offset + Padding(offset, align[s])];
      KeepsEnd(structs, s, n, sizes, align, sizes2, align);
      var f :| 0 <= f < n && align[s] <= Req(structs, s, f, align);
      assert Req(structs, s, f, align) == align[s];
    }
  }

  lemma NewlySized(structs: seq<seq<Field>>, s: nat, sizes: seq<int>, align: seq<int>, v: int)
    requires Shape(structs, sizes, align) && s < |structs| && |structs[s]| > 0 && KnownTo(structs, s, |structs[s]|, sizes)
    requires SizedCan(structs, sizes)
    ensures SizedCan(structs, sizes[s := v]) && Ready(structs, s, sizes)
  {
    forall i | 0 <= i < |structs[s]|
      ensures HoldsSized(structs[s][i].desc, sizes)
    {
      FieldAlign(structs, s, i, sizes, align);
    }
    ReadyCan(structs, s, sizes);
  }

  /** Settled structs stay so when another, or the same, gets a size it had not. */
  lemma StillInv(structs: seq<seq<Field>>, s: nat, sizes: seq<int>, align: seq<int>, sizes2: seq<int>, align2: seq<int>,
                 offs: seq<seq<int>>, offs2: seq<seq<int>>, fsz: seq<seq<int>>, fsz2: seq<seq<int>>)
    requires Inv(structs, sizes, align, offs, fsz) && Shape(structs, sizes2, align2) && Keeps(sizes, align, sizes2, align2)
    requires s < |structs| && SizedCan(structs, sizes2) && |offs2| == |fsz2| == |structs|
    requires forall t :: 0 <= t < |structs| && t != s ==> offs2[t] == offs[t] && fsz2[t] == fsz[t] && sizes2[t] == sizes[t]
    requires forall t :: 0 <= t < |structs| ==> Bounded(structs, t, align2)
    requires |offs2[s]| == |structs[s]| && FieldSizes(structs, s, fsz2[s], sizes2)
    requires sizes2[s] > 0 ==> Settled(structs, s, sizes2, align2, offs2)
    ensures Inv(structs, sizes2, align2, offs2, fsz2)
  {
    hide Settled, FieldSizes, Bounded, SizedCan;
    forall t | 0 <= t < |structs| && t != s
      ensures FieldSizes(structs, t, fsz2[t], sizes2)
      ensures sizes2[t] > 0 ==> Settled(structs, t, sizes2, align2, offs2)
    {
      KeepsSizes(structs, t, fsz[t], sizes, align, sizes2, align2);
      if sizes2[t] > 0 {
        KeepsSettled(structs, t, sizes, align, offs, sizes2, align2, offs2);
      }
    }
  }

  /** The sizes of the first i fields are filled in from what is known. */
  ghost predicate FilledTo(structs: seq<seq<Field>>, s: nat, i: nat, fsz: seq<int>, sizes: seq<int>)
    requires ValidList(structs) && |sizes| == |structs| && s < |structs| && i <= |structs[s]| <= |fsz|
  {
    forall f :: 0 <= f < i && structs[s][f].size <= 0 ==>
      (Weaker(structs[s][f].desc, |structs|, structs[s][f].size);
       fsz[f] == ElementSize(structs[s][f].desc, structs[s][f].size, sizes))
  }

  /** The size of field i, filled in if it is missing. */
  method FillSize(structs: seq<seq<Field>>, s: nat, i: nat, sizes: array<int>, fsz: array<seq<int>>)
    requires ValidList(structs) && sizes.Length == fsz.Length == |structs| && s < |structs| && i < |structs[s]|
    requires FieldSizes(structs, s, fsz[s], sizes[..]) && FilledTo(structs, s, i, fsz[s], sizes[..])
    modifies fsz
    ensures forall t :: 0 <= t < |structs| && t != s ==> fsz[t] == old(fsz[t])
    ensures FieldSizes(structs, s, fsz[s], sizes[..]) && FilledTo(structs, s, i + 1, fsz[s], sizes[..])
  {
    ghost var field := structs[s][i];
    Weaker(field.desc, |structs|, field.size);
    assert SizeOk(field, fsz[s][i], sizes[..]);
    SameField(field.desc, field.size, fsz[s][i], sizes[..], sizes[..], false);
    if fsz[s][i] <= 0 {
      var bytes := DetermineElementSize(structs[s][i].desc, fsz[s][i], sizes);
      fsz[s] := fsz[s][i := bytes];
    }
  }

  /** The state of the pass over struct s after i fields, next to the state before it. */
  ghost predicate Passing(structs: seq<seq<Field>>, s: nat, i: nat, offset: int, bad: int,
                          sizes: seq<int>, al0: seq<int>, of0: seq<int>, align: seq<int>, off: seq<int>, fsz: seq<int>) {
    && ValidList(structs) && |sizes| == |align| == |structs| && s < |structs| && i <= |structs[s]| == |off| && offset >= 0 && bad >= 0
    && Shape(structs, sizes, align) && Keeps(sizes, al0, sizes, align) && (forall t :: 0 <= t < |structs| && t != s ==> align[t] == al0[t])
    && (forall t :: 0 <= t < |structs| ==> Bounded(structs, t, align))
    && FieldSizes(structs, s, fsz, sizes) && FilledTo(structs, s, i, fsz, sizes)
    && (bad == 0 ==> Laid(structs, s, i, offset, sizes, align, off))
    && (sizes[s] > 0 ==> bad == 0 && off == of0)
    && (bad > 0 ==> !Ready(structs, s, sizes))
  }

  lemma Starting(structs: seq<seq<Field>>, s: nat, sizes: seq<int>, align: seq<int>, offs: seq<seq<int>>, fsz: seq<seq<int>>)
    requires Inv(structs, sizes, align, offs, fsz) && s < |structs|
    ensures Passing(structs, s, 0, 0, 0, sizes, align, offs[s], align, offs[s], fsz[s])
  {
    hide Settled, SizedCan;
  }

  /** The alignment step for field i: the struct's alignment, and the field's place. */
  ghost predicate Step(structs: seq<seq<Field>>, s: nat, i: nat, bad: int, sizes: seq<int>, al0: seq<int>, of0: seq<int>,
                       align: seq<int>, offset: int, off: seq<int>) {
    && ValidList(structs) && |sizes| == |align| == |structs| && s < |structs| && i < |structs[s]| == |off| && offset >= 0 && bad >= 0
    && Shape(structs, sizes, align) && Keeps(sizes, al0, sizes, align) && (forall t :: 0 <= t < |structs| && t != s ==> align[t] == al0[t])
    && (forall t :: 0 <= t < |structs| ==> Bounded(structs, t, align))
    && (bad == 0 && Actual(structs, s, i, sizes) > 0 ==>
          Laid(structs, s, i + 1, offset + Actual(structs, s, i, sizes), sizes, align, off))
    && (sizes[s] > 0 ==> bad == 0 && off == of0 && Actual(structs, s, i, sizes) > 0)
    && (bad > 0 ==> !Ready(structs, s, sizes))
  }

  /** Without an alignment yet the field holds a struct without a size. */
  lemma Skipped(structs: seq<seq<Field>>, s: nat, i: nat, offset: int, bad: int,
                sizes: seq<int>, al0: seq<int>, offs0: seq<seq<int>>, align: seq<int>, off: seq<int>, fsz: seq<int>)
    requires Passing(structs, s, i, offset, bad, sizes, al0, if s < |offs0| then offs0[s] else [], align, off, fsz)
    requires i < |structs[s]| && Req(structs, s, i, align) <= 0
    requires Shape(structs, sizes, al0) && |offs0| == |structs| && (sizes[s] > 0 ==> Settled(structs, s, sizes, al0, offs0))
    ensures Step(structs, s, i, bad, sizes, al0, offs0[s], align, offset, off)
  {
    hide FieldSizes, FilledTo, Bounded, Ready, AlignUp, RoundUp;
    FieldAlign(structs, s, i, sizes, align);
    if sizes[s] > 0 {
      SettledReq(structs, s, i, sizes, al0, offs0, align);
    }
  }

  lemma SettledReq(structs: seq<seq<Field>>, s: nat, i: nat, sizes: seq<int>, al0: seq<int>, offs0: seq<seq<int>>, align: seq<int>)
    requires Shape(structs, sizes, al0) && Shape(structs, sizes, align) && Keeps(sizes, al0, sizes, align)
    requires |offs0| == |structs| && s < |structs| && i < |structs[s]| && Settled(structs, s, sizes, al0, offs0)
    ensures Req(structs, s, i, align) > 0
  {
    KeepsEnd(structs, s, |structs[s]|, sizes, al0, sizes, align);
    assert PowerOf2(Req(structs, s, i, align));
  }

  /** Otherwise the field goes to the next aligned place. */
  lemma Placed(structs: seq<seq<Field>>, s: nat, i: nat, offset: int, bad: int, req: int,
               sizes: seq<int>, al0: seq<int>, offs0: seq<seq<int>>, align: seq<int>, off: seq<int>, fsz: seq<int>)
    requires Passing(structs, s, i, offset, bad, sizes, al0, if s < |offs0| then offs0[s] else [], align, off, fsz)
    requires i < |structs[s]| && req == Req(structs, s, i, align) && req > 0
    requires Shape(structs, sizes, al0) && |offs0| == |structs| && (sizes[s] > 0 ==> Settled(structs, s, sizes, al0, offs0))
    ensures PowerOf2(req)
    ensures Step(structs, s, i, bad, sizes, al0, offs0[s], align[s := if req > align[s] then req else align[s]],
                 AlignUp(offset, req), off[i := AlignUp(offset, req)])
  {
    hide Settled, FieldSizes, FilledTo, Bounded, Laid, SizedCan, Ready, KnownTo, AlignedTo, AlignUp, RoundUp, EndOf, StartOf, Actual, Req;
    FieldAlign(structs, s, i, sizes, align);
    AlignPositive(offset, req);
    var align2 := align[s := if req > align[s] then req else align[s]];
    if sizes[s] > 0 {
      KeepsSettled(structs, s, sizes, al0, offs0, sizes, align, offs0[s := off]);
      AlreadyLaid(structs, s, i, offset, sizes, align, offs0[s := off], req);
      assert off[i := AlignUp(offset, req)] == off;
    }
    if req > align[s] {
      Raised(structs, s, i, offset, sizes, align, off, req);
    } else {
      assert align2 == align;
    }
    if bad == 0 && Actual(structs, s, i, sizes) > 0 {
      NextField(structs, s, i, offset, sizes, align2, off, req);
    }
  }

  lemma Stepped(structs: seq<seq<Field>>, s: nat, i: nat, offset: int, bad: int, bytes: int,
                sizes: seq<int>, al0: seq<int>, of0: seq<int>, align: seq<int>, off: seq<int>, fsz: seq<int>)
    requires Step(structs, s, i, bad, sizes, al0, of0, align, offset, off) && bytes == Actual(structs, s, i, sizes)
    requires FieldSizes(structs, s, fsz, sizes) && FilledTo(structs, s, i + 1, fsz, sizes)
    ensures bytes > 0 ==> Passing(structs, s, i + 1, offset + bytes, bad, sizes, al0, of0, align, off, fsz)
    ensures bytes <= 0 ==> Passing(structs, s, i + 1, offset + 1, bad + 1, sizes, al0, of0, align, off, fsz)
  {
    hide Settled, FieldSizes, FilledTo, Bounded, Laid, SizedCan, Ready, Actual, Req;
    FieldAlign(structs, s, i, sizes, align);
    if bytes <= 0 {
      NotReady(structs, s, i, sizes);
    }
  }

  /** One field: alignment, place, size. */
  method PlaceField(structs: seq<seq<Field>>, s: nat, i: nat, offset: int, bad: int, sizes: array<int>, align: array<int>,
                    offs: array<seq<int>>, fsz: array<seq<int>>, ghost al0: seq<int>, ghost of0: seq<seq<int>>, ghost fs0: seq<seq<int>>)
    returns (offset': int, bad': int)
    requires sizes != align && offs != fsz && s < |structs| && i < |structs[s]|
    requires sizes.Length == align.Length == offs.Length == fsz.Length == |structs| && Inv(structs, sizes[..], al0, of0, fs0)
    requires Passing(structs, s, i, offset, bad, sizes[..], al0, of0[s], align[..], offs[s], fsz[s])
    modifies align, offs, fsz
    ensures Passing(structs, s, i + 1, offset', bad', sizes[..], al0, of0[s], align[..], offs[s], fsz[s])
    ensures forall t :: 0 <= t < |structs| && t != s ==> align[t] == old(align[t]) && offs[t] == old(offs[t]) && fsz[t] == old(fsz[t])
  {
    hide Settled, FilledTo, Bounded, Laid, SizedCan, Ready, AlignUp, Keeps, FieldSizes, AlignReq, ActualSize, ElementSize, HoldsSized;
    ghost var sz, al1, off1, f := sizes[..], align[..], offs[s], structs[s][i];
    FieldSizeAt(structs, s, i, fsz[s], sz);
    SameField(f.desc, f.size, fsz[s][i], sz, al1, true);
    var req := TypeAlignment(structs[s][i].desc, fsz[s][i], align);
    offset' := offset;
    if req > 0 {
      Placed(structs, s, i, offset, bad, req, sz, al0, of0, al1, off1, fsz[s]);
      if req > align[s] {
        align[s] := req;
      }
      assert align[..] == al1[s := if req > al1[s] then req else al1[s]];
      offset' := AlignUp(offset, req);
      offs[s] := offs[s][i := offset'];
    } else {
      Skipped(structs, s, i, offset, bad, sz, al0, of0, al1, off1, fsz[s]);
    }
    assert Step(structs, s, i, bad, sz, al0, of0[s], align[..], offset', offs[s]);
    FillSize(structs, s, i, sizes, fsz);
    FieldSizeAt(structs, s, i, fsz[s], sz);
    SameField(f.desc, f.size, fsz[s][i], sz, al1, true);
    var bytes := DetermineActualSize(structs[s][i].desc, fsz[s][i], sizes);
    Stepped(structs, s, i, offset', bad, bytes, sz, al0, of0[s], align[..], offs[s], fsz[s]);
    if bytes > 0 {
      offset', bad' := offset' + bytes, bad;
    } else {
      offset', bad' := offset' + 1, bad + 1;
    }
  }

  /** The struct's size, when all its fields have theirs. */
  lemma GetsSize(structs: seq<seq<Field>>, s: nat, offset: int, sz0: seq<int>, align: seq<int>, offs: seq<seq<int>>, fsz: seq<int>)
    requires Shape(structs, sz0, align) && SizedCan(structs, sz0) && |offs| == |structs| && s < |structs| && |offs[s]| == |structs[s]| > 0
    requires Laid(structs, s, |structs[s]|, offset, sz0, align, offs[s]) && Bounded(structs, s, align)
    requires FieldSizes(structs, s, fsz, sz0) && (sz0[s] > 0 ==> Settled(structs, s, sz0, align, offs))
    ensures PowerOf2(align[s])
    ensures var sizes := sz0[s := offset + Padding(offset, align[s])];
      && sizes[s] > 0 && Shape(structs, sizes, align) && Keeps(sz0, align, sizes, align) && SizedCan(structs, sizes)
      && FieldSizes(structs, s, fsz, sizes) && Settled(structs, s, sizes, align, offs) && Ready(structs, s, sz0)
  {
    Closes(structs, s, offset, sz0, align, offs);
    var sizes := sz0[s := offset + Padding(offset, align[s])];
    hide Laid, Settled, SizedCan, FieldSizes, Padding, Bounded, Ready;
    assert sz0[s] > 0 ==> sizes == sz0;
    LaidKnown(structs, s, offset, sz0, align, offs[s]);
    NewlySized(structs, s, sz0, align, sizes[s]);
    KeepsSizes(structs, s, fsz, sz0, align, sizes, align);
  }

  lemma LaidKnown(structs: seq<seq<Field>>, s: nat, offset: int, sizes: seq<int>, align: seq<int>, off: seq<int>)
    requires ValidList(structs) && |sizes| == |align| == |structs| && s < |structs| && |structs[s]| <= |off|
    requires Laid(structs, s, |structs[s]|, offset, sizes, align, off)
    ensures KnownTo(structs, s, |structs[s]|, sizes)
  {
  }

  /** The end of the pass. */
  lemma Finished(structs: seq<seq<Field>>, s: nat, offset: int, bad: int, sz0: seq<int>, al0: seq<int>, of0: seq<seq<int>>, fs0: seq<seq<int>>,
                 sizes: seq<int>, align: seq<int>, offs: seq<seq<int>>, fsz: seq<seq<int>>)
    requires Inv(structs, sz0, al0, of0, fs0) && s < |structs| && |offs| == |fsz| == |structs|
    requires Passing(structs, s, |structs[s]|, offset, bad, sz0, al0, of0[s], align, offs[s], fsz[s])
    requires sizes == if bad == 0 && align[s] != -1 then sz0[s := offset + Padding(offset, align[s])] else sz0
    requires forall t :: 0 <= t < |structs| && t != s ==> offs[t] == of0[t] && fsz[t] == fs0[t]
    ensures Inv(structs, sizes, align, offs, fsz) && Keeps(sz0, al0, sizes, align)
    ensures Ready(structs, s, sz0) ==> sizes[s] > 0
    ensures sizes[s] > 0 ==> sz0[s] > 0 || Ready(structs, s, sz0)
    ensures sz0[s] > 0 ==> offs[s] == of0[s]
    ensures FilledTo(structs, s, |structs[s]|, fsz[s], sz0)
  {
    hide FilledTo, SizedCan, Padding, FieldSizes, Settled, Laid;
    if sz0[s] > 0 {
      SettledHasFields(structs, s, sz0, al0, of0);
      KeepsSettled(structs, s, sz0, al0, of0, sz0, align, offs);
    }
    if bad == 0 && |structs[s]| > 0 {
      GetsSize(structs, s, offset, sz0, align, offs, fsz[s]);
    }
    StillInv(structs, s, sz0, al0, sizes, align, of0, offs, fs0, fsz);
  }

  lemma SettledHasFields(structs: seq<seq<Field>>, s: nat, sizes: seq<int>, align: seq<int>, offs: seq<seq<int>>)
    requires ValidList(structs) && |sizes| == |align| == |offs| == |structs| && s < |structs| && Settled(structs, s, sizes, align, offs)
    ensures |structs[s]| > 0
  {
  }

  /** One struct in one round. It gets its size as soon as all it holds has one, and keeps it. */
  method SetSizesAndOffsets(structs: seq<seq<Field>>, s: nat, sizes: array<int>, align: array<int>,
                            offs: array<seq<int>>, fsz: array<seq<int>>)
    requires sizes != align && offs != fsz
    requires Inv(structs, sizes[..], align[..], offs[..], fsz[..]) && s < |structs|
    modifies sizes, align, offs, fsz
    ensures Inv(structs, sizes[..], align[..], offs[..], fsz[..])
    ensures Keeps(old(sizes[..]), old(align[..]), sizes[..], align[..])
    ensures forall t :: 0 <= t < |structs| && t != s ==>
      sizes[t] == old(sizes[t]) && align[t] == old(align[t]) && offs[t] == old(offs[t]) && fsz[t] == old(fsz[t])
    ensures sizes[s] > 0 <==> old(sizes[s]) > 0 || Ready(structs, s, old(sizes[..]))
    ensures old(sizes[s]) > 0 ==> offs[s] == old(offs[s])
    ensures FilledTo(structs, s, |structs[s]|, fsz[s], old(sizes[..]))
  {
    assert sizes.Length == align.Length == offs.Length == fsz.Length == |structs|;
    hide Shape, Keeps, Inv, Settled, FieldSizes, FilledTo, Bounded, Laid, SizedCan, Ready, AlignUp, Padding;
    ghost var sz0, al0, of0, fs0 := sizes[..], align[..], offs[..], fsz[..];
    Starting(structs, s, sz0, al0, of0, fs0);
    var offset, bad, i := 0, 0, 0;
    while i < |structs[s]|
      invariant 0 <= i <= |structs[s]| && sizes[..] == sz0
      invariant forall t :: 0 <= t < |structs| && t != s ==> align[t] == al0[t] && offs[t] == of0[t] && fsz[t] == fs0[t]
      invariant Passing(structs, s, i, offset, bad, sz0, al0, of0[s], align[..], offs[s], fsz[s])
    {
      hide Passing;
      offset, bad := PlaceField(structs, s, i, offset, bad, sizes, align, offs, fsz, al0, of0, fs0);
      i := i + 1;
    }
    ghost var al := align[..];
    if bad == 0 && align[s] != -1 {
      assert PowerOf2(align[s]);
      sizes[s] := offset + Padding(offset, align[s]);
    }
    Finished(structs, s, offset, bad, sz0, al0, of0, fs0, sizes[..], al, offs[..], fsz[..]);
  }
  lemma AlignPositive(x: int, a: int)
    requires x >= 0 && PowerOf2(a)
    ensures AlignUp(x, a) >= x
  {
    RoundsUp(x, a);
  }

  lemma FieldSizeAt(structs: seq<seq<Field>>, s: nat, i: nat, fsz: seq<int>, sizes: seq<int>)
    requires ValidList(structs) && |sizes| == |structs| && s < |structs| && i < |structs[s]| && FieldSizes(structs, s, fsz, sizes)
    ensures |fsz| == |structs[s]| && (structs[s][i].size > 0 ==> fsz[i] == structs[s][i].size)
    ensures Known(structs[s][i].desc, |structs|, structs[s][i].size, true)
  {
  }

  lemma NotReady(structs: seq<seq<Field>>, s: nat, i: nat, sizes: seq<int>)
    requires ValidList(structs) && |sizes| == |structs| && s < |structs| && i < |structs[s]|
    requires !HoldsSized(structs[s][i].desc, sizes)
    ensures !Ready(structs, s, sizes)
  {
  }

  function Flags(sizes: seq<int>): (v: seq<bool>)
    ensures |v| == |sizes| && forall s :: 0 <= s < |sizes| ==> (v[s] <==> sizes[s] > 0)
  {
    seq(|sizes|, s requires 0 <= s < |sizes| => sizes[s] > 0)
  }

  /** What one round has done for the first i structs. */
  ghost predicate InRound(structs: seq<seq<Field>>, i: nat, sz0: seq<int>, al0: seq<int>,
                          sizes: seq<int>, align: seq<int>, offs: seq<seq<int>>, fsz: seq<seq<int>>) {
    && Inv(structs, sizes, align, offs, fsz) && Shape(structs, sz0, al0) && Keeps(sz0, al0, sizes, align) && i <= |structs|
    && (forall t :: 0 <= t < i && Ready(structs, t, sz0) ==> sizes[t] > 0)
    && (AllDone(structs, sz0) ==> sizes == sz0 && forall t :: 0 <= t < i ==> FilledTo(structs, t, |structs[t]|, fsz[t], sz0))
  }

  lemma StillReady(structs: seq<seq<Field>>, s: nat, sz0: seq<int>, al0: seq<int>, sizes: seq<int>, align: seq<int>)
    requires Keeps(sz0, al0, sizes, align) && Ready(structs, s, sz0)
    ensures Ready(structs, s, sizes)
  {
    forall i | 0 <= i < |structs[s]|
      ensures HoldsSized(structs[s][i].desc, sizes)
    {
      assert HoldsSized(structs[s][i].desc, sz0);
    }
  }

  lemma NothingNew(structs: seq<seq<Field>>, sz0: seq<int>, al0: seq<int>, sizes: seq<int>, align: seq<int>)
    requires Shape(structs, sz0, al0) && Shape(structs, sizes, align) && Keeps(sz0, al0, sizes, align)
    requires AllDone(structs, sz0) && SizedCan(structs, sizes)
    ensures sizes == sz0
  {
    forall s | 0 <= s < |sizes|
      ensures sizes[s] == sz0[s]
    {
      if sizes[s] > 0 { assert CanLayOut(structs, s); }
    }
  }

  /** One round: what was ready before it has a size after it. */
  method Round(structs: seq<seq<Field>>, sizes: array<int>, align: array<int>, offs: array<seq<int>>, fsz: array<seq<int>>)
    requires sizes != align && offs != fsz && Inv(structs, sizes[..], align[..], offs[..], fsz[..])
    modifies sizes, align, offs, fsz
    ensures InRound(structs, |structs|, old(sizes[..]), old(align[..]), sizes[..], align[..], offs[..], fsz[..])
  {
    ghost var sz0, al0 := sizes[..], align[..];
    var i := 0;
    while i < |structs|
      invariant 0 <= i <= |structs|
      invariant InRound(structs, i, sz0, al0, sizes[..], align[..], offs[..], fsz[..])
    {
      hide InRound, Inv, Keeps, Ready, FilledTo;
      InRoundInv(structs, i, sz0, al0, sizes[..], align[..], offs[..], fsz[..]);
      ghost var sz1, al1, of1, fs1 := sizes[..], align[..], offs[..], fsz[..];
      SetSizesAndOffsets(structs, i, sizes, align, offs, fsz);
      OneMore(structs, i, sz0, al0, sz1, al1, of1, fs1, sizes[..], align[..], offs[..], fsz[..]);
      i := i + 1;
    }
  }

  lemma InRoundInv(structs: seq<seq<Field>>, i: nat, sz0: seq<int>, al0: seq<int>,
                   sizes: seq<int>, align: seq<int>, offs: seq<seq<int>>, fsz: seq<seq<int>>)
    requires InRound(structs, i, sz0, al0, sizes, align, offs, fsz)
    ensures Inv(structs, sizes, align, offs, fsz)
  {
  }

  lemma OneMore(structs: seq<seq<Field>>, i: nat, sz0: seq<int>, al0: seq<int>, sz1: seq<int>, al1: seq<int>, of1: seq<seq<int>>, fs1: seq<seq<int>>,
                sizes: seq<int>, align: seq<int>, offs: seq<seq<int>>, fsz: seq<seq<int>>)
    requires i < |structs| && InRound(structs, i, sz0, al0, sz1, al1, of1, fs1)
    requires Inv(structs, sizes, align, offs, fsz) && Keeps(sz1, al1, sizes, align)
    requires forall t :: 0 <= t < |structs| && t != i ==> fsz[t] == fs1[t]
    requires Ready(structs, i, sz1) ==> sizes[i] > 0
    requires FilledTo(structs, i, |structs[i]|, fsz[i], sz1)
    ensures InRound(structs, i + 1, sz0, al0, sizes, align, offs, fsz)
  {
    hide Ready, AllDone, SizedCan, Settled, Bounded, FieldSizes, FilledTo;
    if Ready(structs, i, sz0) {
      StillReady(structs, i, sz0, al0, sz1, al1);
    }
    if AllDone(structs, sz0) {
      NothingNew(structs, sz0, al0, sizes, align);
    }
  }

  /** A round that leaves something out has given some struct a size. */
  lemma Progress(structs: seq<seq<Field>>, sz0: seq<int>, al0: seq<int>,
                 sizes: seq<int>, align: seq<int>, offs: seq<seq<int>>, fsz: seq<seq<int>>)
    requires InRound(structs, |structs|, sz0, al0, sizes, align, offs, fsz)
    ensures !AllDone(structs, sz0) ==> Count(Flags(sz0)) < Count(Flags(sizes)) <= |structs|
    ensures AllDone(structs, sz0) ==> AllDone(structs, sizes)
  {
    CountGrows(Flags(sz0), Flags(sizes));
    if !AllDone(structs, sz0) {
      var s :| 0 <= s < |sz0| && CanLayOut(structs, s) && sz0[s] <= 0;
      var k: nat :| Grounded(structs, s, k);
      var r := SomeReady(structs, s, k, sz0);
      assert Flags(sizes)[r] && !Flags(sz0)[r];
    }
  }

  lemma AllSized(structs: seq<seq<Field>>, sizes: seq<int>)
    requires |sizes| == |structs| && Count(Flags(sizes)) >= |structs|
    ensures AllDone(structs, sizes)
  {
    AllFlagged(Flags(sizes));
    assert forall s :: 0 <= s < |sizes| ==> Flags(sizes)[s];
  }

  /** The size filled in where none is given: 4 for integers, 8 for floats and strings, what
      a struct takes; also at the end of pointers and arrays. */
  predicate FillsIn(d: TypeDesc, f: int, sizes: seq<int>) {
    match d
    case Pointer(next) => FillsIn(next, f, sizes)
    case Array(_, next) => FillsIn(next, f, sizes)
    case Text => f == 8
    case Struct(k) => k < |sizes| && f == sizes[k]
    case Integer => f == 4
    case Float => f == 8
  }

  ghost predicate SizesFilled(fields: seq<Field>, fsz: seq<int>, sizes: seq<int>) {
    |fsz| == |fields| && forall i :: 0 <= i < |fsz| ==>
      if fields[i].size > 0 then fsz[i] == fields[i].size else FillsIn(fields[i].desc, fsz[i], sizes)
  }

  lemma {:induction false} ElementFillsIn(d: TypeDesc, size: int, sizes: seq<int>)
    requires Known(d, |sizes|, size, false) && size <= 0
    ensures FillsIn(d, ElementSize(d, size, sizes), sizes)
  {
    match d {
      case Pointer(next) => ElementFillsIn(next, size, sizes);
      case Array(_, next) => ElementFillsIn(next, size, sizes);
      case _ =>
    }
  }

  lemma AllFilled(structs: seq<seq<Field>>, s: nat, fsz: seq<int>, sizes: seq<int>)
    requires ValidList(structs) && |sizes| == |structs| && s < |structs|
    requires FieldSizes(structs, s, fsz, sizes) && FilledTo(structs, s, |structs[s]|, fsz, sizes)
    ensures SizesFilled(structs[s], fsz, sizes)
  {
    hide FillsIn, ElementSize;
    forall i | 0 <= i < |fsz|
      ensures if structs[s][i].size > 0 then fsz[i] == structs[s][i].size else FillsIn(structs[s][i].desc, fsz[i], sizes)
    {
      Weaker(structs[s][i].desc, |structs|, structs[s][i].size);
      assert SizeOk(structs[s][i], fsz[i], sizes);
      if structs[s][i].size <= 0 { ElementFillsIn(structs[s][i].desc, structs[s][i].size, sizes); }
    }
  }

  /** Main result. After one round more than there are structs exactly the structs that can be
      laid out have a layout, each following from those of the structs it holds, and missing
      field sizes are those of the final layout. */
  method FMlocalizeStructs(structs: seq<seq<Field>>, sizes: array<int>, align: array<int>,
                           offs: array<seq<int>>, fsz: array<seq<int>>)
    requires ValidList(structs) && sizes != align && offs != fsz
    requires sizes.Length == align.Length == offs.Length == fsz.Length == |structs|
    requires forall s :: 0 <= s < |structs| ==> |offs[s]| == |fsz[s]| == |structs[s]|
    requires forall s, i :: 0 <= s < |structs| && 0 <= i < |structs[s]| ==> fsz[s][i] == structs[s][i].size
    modifies sizes, align, offs, fsz
    ensures Shape(structs, sizes[..], align[..]) && offs.Length == fsz.Length == |structs|
    ensures forall s :: 0 <= s < |structs| ==> (sizes[s] > 0 <==> CanLayOut(structs, s))
    ensures forall s :: 0 <= s < |structs| && sizes[s] > 0 ==> Settled(structs, s, sizes[..], align[..], offs[..])
    ensures forall s :: 0 <= s < |structs| && sizes[s] > 0 ==> InPlace(structs[s], offs[s], sizes[s], align[s], sizes[..], align[..])
    ensures forall s :: 0 <= s < |structs| ==> SizesFilled(structs[s], fsz[s], sizes[..])
  {
    var j := 0;
    while j < |structs|
      invariant 0 <= j <= |structs|
      invariant forall s :: 0 <= s < j ==> sizes[s] == -1 && align[s] == -1
      invariant forall s :: 0 <= s < |structs| ==> offs[s] == old(offs[s]) && fsz[s] == old(fsz[s])
    {
      sizes[j], align[j] := -1, -1;
      j := j + 1;
    }
    Initial(structs, sizes[..], align[..], offs[..], fsz[..]);
    j := 0;
    while j < |structs| + 1
      invariant 0 <= j <= |structs| + 1
      invariant Inv(structs, sizes[..], align[..], offs[..], fsz[..])
      invariant AllDone(structs, sizes[..]) || (j <= Count(Flags(sizes[..])) && j <= |structs|)
      invariant j == |structs| + 1 ==> forall s :: 0 <= s < |structs| ==> FilledTo(structs, s, |structs[s]|, fsz[s], sizes[..])
    {
      hide Inv, Ready, AllDone, SizedCan, Settled, Bounded, FieldSizes, FilledTo, Keeps, Shape;
      ghost var sz0, al0 := sizes[..], align[..];
      if j == |structs| && !AllDone(structs, sz0) {
        AllSized(structs, sz0);
      }
      Round(structs, sizes, align, offs, fsz);
      Progress(structs, sz0, al0, sizes[..], align[..], offs[..], fsz[..]);
      j := j + 1;
    }
    AllInPlace(structs, sizes[..], align[..], offs[..]);
    EveryFilled(structs, fsz[..], sizes[..]);
  }

  lemma EveryFilled(structs: seq<seq<Field>>, fsz: seq<seq<int>>, sizes: seq<int>)
    requires ValidList(structs) && |sizes| == |fsz| == |structs|
    requires forall s :: 0 <= s < |structs| ==> FieldSizes(structs, s, fsz[s], sizes) && FilledTo(structs, s, |structs[s]|, fsz[s], sizes)
    ensures forall s :: 0 <= s < |structs| ==> SizesFilled(structs[s], fsz[s], sizes)
  {
    hide FieldSizes, FilledTo, SizesFilled;
    forall s | 0 <= s < |structs|
      ensures SizesFilled(structs[s], fsz[s], sizes)
    {
      AllFilled(structs, s, fsz[s], sizes);
    }
  }

  lemma Initial(structs: seq<seq<Field>>, sizes: seq<int>, align: seq<int>, offs: seq<seq<int>>, fsz: seq<seq<int>>)
    requires ValidList(structs) && |sizes| == |align| == |offs| == |fsz| == |structs|
    requires forall s :: 0 <= s < |structs| ==> sizes[s] == -1 && align[s] == -1 && |offs[s]| == |fsz[s]| == |structs[s]|
    requires forall s, i :: 0 <= s < |structs| && 0 <= i < |structs[s]| ==> fsz[s][i] == structs[s][i].size
    ensures Inv(structs, sizes, align, offs, fsz)
  {
    forall s | 0 <= s < |structs|
      ensures FieldSizes(structs, s, fsz[s], sizes)
    {
      forall i | 0 <= i < |structs[s]|
        ensures Known(structs[s][i].desc, |structs|, structs[s][i].size, false) && SizeOk(structs[s][i], fsz[s][i], sizes)
      {
        Weaker(structs[s][i].desc, |structs|, structs[s][i].size);
      }
    }
  }

  // ---- the layout in numbers ----

  /** The type below the array dimensions, and how many of it there are. */
  function Base(d: TypeDesc): (b: TypeDesc)
    ensures !b.Array?
  {
    if d.Array? then Base(d.next) else d
  }

  function Elements(d: TypeDesc): nat {
    if d.Array? then (if d.count > 0 then d.count * Elements(d.next) else Elements(d.next)) else 1
  }

  /** Integers of 1, 2, 4 and 8 bytes, floats of 4, 8 and 16, pointers and strings go at
      multiples of their size, a struct at multiples of its alignment. */
  predicate GoesAt(field: Field, a: int, align: seq<int>) {
    match Base(field.desc)
    case Integer => field.size in {1, 2, 4, 8} ==> a == field.size
    case Float => field.size in {4, 8, 16} ==> a == field.size
    case Struct(k) => k < |align| ==> a == align[k]
    case _ => a == 8
  }

  /** Bytes of one element. */
  predicate Takes(field: Field, n: int, sizes: seq<int>) {
    match Base(field.desc)
    case Integer => if field.size > 0 then n == field.size else n == 4
    case Float => if field.size > 0 then n == field.size else n == 8
    case Struct(k) => k < |sizes| ==> n == sizes[k]
    case _ => n == 8
  }

  predicate LeastMultiple(x: int, a: int, from: int) {
    a > 0 && x % a == 0 && from <= x < from + a
  }

  /** With alignments `at` and element sizes `bytes`, field i starts at the least multiple of its
      alignment not below the end of the field before it. */
  predicate StartsRight(fields: seq<Field>, offs: seq<int>, at: seq<int>, bytes: seq<int>, i: nat)
    requires |at| == |bytes| == |offs| == |fields| && i < |fields|
  {
    LeastMultiple(offs[i], at[i], if i == 0 then 0 else offs[i - 1] + Elements(fields[i - 1].desc) * bytes[i - 1])
  }

  /** The struct has the largest of the alignments, and the least multiple of it for its size that
      holds the fields. */
  ghost predicate PlacedBy(fields: seq<Field>, offs: seq<int>, size: int, largest: int, at: seq<int>, bytes: seq<int>,
                           sizes: seq<int>, align: seq<int>) {
    && |at| == |bytes| == |offs| == |fields| > 0
    && (forall i :: 0 <= i < |fields| ==> GoesAt(fields[i], at[i], align) && Takes(fields[i], bytes[i], sizes))
    && (forall i :: 0 <= i < |fields| ==> StartsRight(fields, offs, at, bytes, i))
    && (forall i :: 0 <= i < |fields| ==> at[i] <= largest) && largest in at
    && LeastMultiple(size, largest, offs[|fields| - 1] + Elements(fields[|fields| - 1].desc) * bytes[|fields| - 1])
  }

  ghost predicate InPlace(fields: seq<Field>, offs: seq<int>, size: int, largest: int, sizes: seq<int>, align: seq<int>) {
    exists at: seq<int>, bytes: seq<int> :: PlacedBy(fields, offs, size, largest, at, bytes, sizes, align)
  }

  lemma {:induction false} FieldNumbers(d: TypeDesc, size: int, sizes: seq<int>, align: seq<int>)
    requires |sizes| == |align| && Known(d, |sizes|, size, true)
    ensures Known(Base(d), |sizes|, size, true)
    ensures AlignReq(d, size, align) == AlignReq(Base(d), size, align)
    ensures ActualSize(d, size, sizes) == Elements(d) * ActualSize(Base(d), size, sizes)
  {
    if d.Array? {
      FieldNumbers(d.next, size, sizes, align);
      TimesAssociates(Times(d.count), Elements(d.next), ActualSize(Base(d), size, sizes));
    }
  }

  function Unit(structs: seq<seq<Field>>, s: nat, i: nat, sizes: seq<int>): int
    requires ValidList(structs) && |sizes| == |structs| && s < |structs| && i < |structs[s]|
  {
    FieldNumbers(structs[s][i].desc, structs[s][i].size, sizes, sizes);
    ActualSize(Base(structs[s][i].desc), structs[s][i].size, sizes)
  }

  lemma FieldPlaced(structs: seq<seq<Field>>, s: nat, i: nat, sizes: seq<int>, align: seq<int>)
    requires ValidList(structs) && |sizes| == |align| == |structs| && s < |structs| && i < |structs[s]|
    ensures GoesAt(structs[s][i], Req(structs, s, i, align), align) && Takes(structs[s][i], Unit(structs, s, i, sizes), sizes)
    ensures Elements(structs[s][i].desc) * Unit(structs, s, i, sizes) == Actual(structs, s, i, sizes)
  {
    FieldNumbers(structs[s][i].desc, structs[s][i].size, sizes, align);
  }

  /** A settled layout is in place. */
  lemma SettledInPlace(structs: seq<seq<Field>>, s: nat, sizes: seq<int>, align: seq<int>, offs: seq<seq<int>>)
    requires Shape(structs, sizes, align) && |offs| == |structs| && s < |structs| && Settled(structs, s, sizes, align, offs)
    ensures InPlace(structs[s], offs[s], sizes[s], align[s], sizes, align)
  {
    hide Settled, Req, Unit, Actual, GoesAt, Takes, Elements, LeastMultiple, StartsRight;
    var n := |structs[s]|;
    SettledLargest(structs, s, sizes, align, offs);
    var at := seq(n, i requires 0 <= i < n => Req(structs, s, i, align));
    var bytes := seq(n, i requires 0 <= i < n => Unit(structs, s, i, sizes));
    forall i | 0 <= i < n
      ensures GoesAt(structs[s][i], at[i], align) && Takes(structs[s][i], bytes[i], sizes)
    {
      FieldPlaced(structs, s, i, sizes, align);
    }
    forall i | 0 <= i < n
      ensures StartsRight(structs[s], offs[s], at, bytes, i)
    {
      FieldRight(structs, s, i, sizes, align, offs, at, bytes);
    }
    FieldPlaced(structs, s, n - 1, sizes, align);
    var k :| 0 <= k < n && Req(structs, s, k, align) == align[s];
    assert at[k] == align[s];
    assert PlacedBy(structs[s], offs[s], sizes[s], align[s], at, bytes, sizes, align);
  }

  lemma FieldRight(structs: seq<seq<Field>>, s: nat, i: nat, sizes: seq<int>, align: seq<int>, offs: seq<seq<int>>, at: seq<int>, bytes: seq<int>)
    requires Shape(structs, sizes, align) && |offs| == |structs| && s < |structs| && i < |structs[s]| && Settled(structs, s, sizes, align, offs)
    requires |at| == |bytes| == |offs[s]| == |structs[s]| && at[i] == Req(structs, s, i, align) && (i > 0 ==> bytes[i - 1] == Unit(structs, s, i - 1, sizes))
    ensures StartsRight(structs[s], offs[s], at, bytes, i)
  {
    hide Settled, ValidList, Req, Unit, Actual, GoesAt, Takes, Elements, LeastMultiple;
    OffsetLeast(structs, s, i, sizes, align, offs);
    if i > 0 { FieldPlaced(structs, s, i - 1, sizes, align); }
  }

  lemma SettledLargest(structs: seq<seq<Field>>, s: nat, sizes: seq<int>, align: seq<int>, offs: seq<seq<int>>)
    requires Shape(structs, sizes, align) && |offs| == |structs| && s < |structs| && Settled(structs, s, sizes, align, offs)
    ensures |offs[s]| == |structs[s]| > 0 && align[s] > 0
    ensures forall i :: 0 <= i < |structs[s]| ==> Req(structs, s, i, align) <= align[s]
    ensures exists i :: 0 <= i < |structs[s]| && Req(structs, s, i, align) == align[s]
    ensures LeastMultiple(sizes[s], align[s], offs[s][|structs[s]| - 1] + Actual(structs, s, |structs[s]| - 1, sizes))
  {
    FieldsFit(structs, s, |structs[s]| - 1, sizes, align, offs);
  }

  lemma AllInPlace(structs: seq<seq<Field>>, sizes: seq<int>, align: seq<int>, offs: seq<seq<int>>)
    requires Shape(structs, sizes, align) && |offs| == |structs|
    requires forall s :: 0 <= s < |structs| && sizes[s] > 0 ==> Settled(structs, s, sizes, align, offs)
    ensures forall s :: 0 <= s < |structs| && sizes[s] > 0 ==> InPlace(structs[s], offs[s], sizes[s], align[s], sizes, align)
  {
    hide InPlace, Settled;
    forall s | 0 <= s < |structs| && sizes[s] > 0
      ensures InPlace(structs[s], offs[s], sizes[s], align[s], sizes, align)
    {
      SettledInPlace(structs, s, sizes, align, offs);
    }
  }

  lemma OffsetLeast(structs: seq<seq<Field>>, s: nat, i: nat, sizes: seq<int>, align: seq<int>, offs: seq<seq<int>>)
    requires Shape(structs, sizes, align) && |offs| == |structs| && s < |structs| && i < |structs[s]|
    requires Settled(structs, s, sizes, align, offs)
    ensures LeastMultiple(offs[s][i], Req(structs, s, i, align), if i == 0 then 0 else offs[s][i - 1] + Actual(structs, s, i - 1, sizes))
  {
    FieldsFit(structs, s, i, sizes, align, offs);
    if i > 0 {
      FieldsFit(structs, s, i - 1, sizes, align, offs);
    } else {
      assert PowerOf2(Req(structs, s, 0, align));
      RoundsUp(0, Req(structs, s, 0, align));
    }
  }

  // ---- what a settled layout is ----

  /** Fields are aligned, in order and apart; the struct's size is the least multiple of its
      alignment that holds them, and every field's alignment divides the struct's. */
  lemma FieldsFit(structs: seq<seq<Field>>, s: nat, i: nat, sizes: seq<int>, align: seq<int>, offs: seq<seq<int>>)
    requires Shape(structs, sizes, align) && |offs| == |structs| && s < |structs| && i < |structs[s]|
    requires Settled(structs, s, sizes, align, offs)
    ensures var req := Req(structs, s, i, align);
      && PowerOf2(req) && offs[s][i] % req == 0 && offs[s][i] >= 0 && align[s] % req == 0
    ensures i + 1 < |structs[s]| ==> offs[s][i] + Actual(structs, s, i, sizes) <= offs[s][i + 1]
    ensures i + 1 < |structs[s]| ==> offs[s][i + 1] < offs[s][i] + Actual(structs, s, i, sizes) + Req(structs, s, i + 1, align)
    ensures i + 1 == |structs[s]| ==> var end := offs[s][i] + Actual(structs, s, i, sizes);
      end <= sizes[s] < end + align[s] && sizes[s] % align[s] == 0
  {
    assert PowerOf2(Req(structs, s, i, align));
    RoundsUp(EndOf(structs, s, i, sizes, align), Req(structs, s, i, align));
    RoundsUp(EndOf(structs, s, |structs[s]|, sizes, align), align[s]);
    Divides(Req(structs, s, i, align), align[s]);
    if i + 1 < |structs[s]| {
      assert PowerOf2(Req(structs, s, i + 1, align));
      assert offs[s][i + 1] == RoundUp(EndOf(structs, s, i + 1, sizes, align), Req(structs, s, i + 1, align));
      assert EndOf(structs, s, i + 1, sizes, align) == offs[s][i] + Actual(structs, s, i, sizes);
    }
  }

  lemma Divides(a: int, b: int)
    requires PowerOf2(a) && PowerOf2(b) && a <= b
    ensures b % a == 0
  {
    if a == 1 { } else if a == 2 { } else if a == 4 { } else if a == 8 { } else { }
  }

  /** The layout is one: however the structs are listed and whatever the rounds met first, the
      layout of a struct depends on its fields only. */
  lemma {:induction false} OneLayout(structs: seq<seq<Field>>, s: nat, k: nat, sizes: seq<int>, align: seq<int>, offs: seq<seq<int>>,
                                     sizes2: seq<int>, align2: seq<int>, offs2: seq<seq<int>>)
    requires Shape(structs, sizes, align) && Shape(structs, sizes2, align2) && |offs| == |offs2| == |structs|
    requires forall t :: 0 <= t < |structs| && CanLayOut(structs, t) ==>
      Settled(structs, t, sizes, align, offs) && Settled(structs, t, sizes2, align2, offs2)
    requires Grounded(structs, s, k)
    ensures sizes2[s] == sizes[s] && align2[s] == align[s] && offs2[s] == offs[s]
    decreases k
  {
    var n := |structs[s]|;
    forall i, j: nat | 0 <= i < n && Holds(structs[s][i].desc, j)
      ensures j < |structs| && sizes2[j] == sizes[j] && align2[j] == align[j]
    {
      OneLayout(structs, j, k - 1, sizes, align, offs, sizes2, align2, offs2);
    }
    assert CanLayOut(structs, s);
    forall i | 0 <= i < n
      ensures Req(structs, s, i, align2) == Req(structs, s, i, align) && Actual(structs, s, i, sizes2) == Actual(structs, s, i, sizes)
    {
      SameParts(structs[s][i].desc, structs[s][i].size, sizes, align, sizes2, align2);
    }
    SameEnds(structs, s, n, sizes, align, sizes2, align2);
    var f :| 0 <= f < n && Req(structs, s, f, align) == align[s];
    var g :| 0 <= g < n && Req(structs, s, g, align2) == align2[s];
    assert Req(structs, s, f, align2) <= align2[s] && Req(structs, s, g, align) <= align[s];
  }

  lemma {:induction false} SameParts(d: TypeDesc, size: int, sizes: seq<int>, align: seq<int>, sizes2: seq<int>, align2: seq<int>)
    requires |sizes| == |align| == |sizes2| == |align2| && Known(d, |sizes|, size, true)
    requires forall j: nat :: Holds(d, j) ==> j < |sizes| && sizes2[j] == sizes[j] && align2[j] == align[j]
    ensures AlignReq(d, size, align2) == AlignReq(d, size, align) && ActualSize(d, size, sizes2) == ActualSize(d, size, sizes)
  {
    match d {
      case Array(count, next) =>
        assert forall j: nat :: Holds(d, j) == Holds(next, j);
        SameParts(next, size, sizes, align, sizes2, align2);
      case Struct(k) => assert Holds(d, k);
      case _ =>
    }
  }

  lemma {:induction false} SameEnds(structs: seq<seq<Field>>, s: nat, i: nat, sizes: seq<int>, align: seq<int>, sizes2: seq<int>, align2: seq<int>)
    requires ValidList(structs) && |sizes| == |align| == |sizes2| == |align2| == |structs| && s < |structs| && i <= |structs[s]|
    requires forall f :: 0 <= f < i ==> Req(structs, s, f, align2) == Req(structs, s, f, align)
    requires forall f :: 0 <= f < i ==> Actual(structs, s, f, sizes2) == Actual(structs, s, f, sizes)
    requires KnownTo(structs, s, i, sizes) && AlignedTo(structs, s, i, align) && KnownTo(structs, s, i, sizes2) && AlignedTo(structs, s, i, align2)
    ensures EndOf(structs, s, i, sizes2, align2) == EndOf(structs, s, i, sizes, align)
    ensures forall f :: 0 <= f < i ==> StartOf(structs, s, f, sizes2, align2) == StartOf(structs, s, f, sizes, align)
  {
    if i > 0 {
      SameEnds(structs, s, i - 1, sizes, align, sizes2, align2);
      assert Req(structs, s, i - 1, align2) == Req(structs, s, i - 1, align);
      assert Actual(structs, s, i - 1, sizes2) == Actual(structs, s, i - 1, sizes);
    }
  }

  // ---- a struct of every kind of field ----

  /** struct { char; double; short; char *; } and, in a second one, an int and two of the first. */
  function Samples(): (l: seq<seq<Field>>)
    ensures ValidList(l) && |l| == 2 && l[0] == First() && l[1] == Second()
  {
    [First(), Second()]
  }

  function First(): (f: seq<Field>)
    ensures |f| == 4 && f[0] == Field(Integer, 1) && f[1] == Field(Float, 8) && f[2] == Field(Integer, 2) && f[3] == Field(Text, 8)
  {
    [Field(Integer, 1), Field(Float, 8), Field(Integer, 2), Field(Text, 8)]
  }

  function Second(): (f: seq<Field>)
    ensures |f| == 2 && f[0] == Field(Integer, 4) && f[1] == Field(Array(2, Struct(0)), -1)
  {
    [Field(Integer, 4), Field(Array(2, Struct(0)), -1)]
  }

  lemma {:induction false} SamplesCan()
    ensures CanLayOut(Samples(), 0) && CanLayOut(Samples(), 1)
  {
    hide First, Second, Samples;
    assert Grounded(Samples(), 0, 1);
    assert forall j: nat :: Holds(Array(2, Struct(0)), j) ==> j == 0;
    assert Grounded(Samples(), 1, 2);
  }

  lemma FirstSample(offs: seq<int>, size: int, largest: int, sizes: seq<int>, align: seq<int>)
    requires InPlace(First(), offs, size, largest, sizes, align)
    ensures offs == [0, 8, 16, 24] && size == 32 && largest == 8
  {
    hide First;
    var f := First();
    var at: seq<int>, bytes: seq<int> :| PlacedBy(f, offs, size, largest, at, bytes, sizes, align);
    assert forall i :: 0 <= i < 4 ==> Elements(f[i].desc) == 1;
    assert GoesAt(f[0], at[0], align) && GoesAt(f[1], at[1], align) && GoesAt(f[2], at[2], align) && GoesAt(f[3], at[3], align);
    assert Takes(f[0], bytes[0], sizes) && Takes(f[1], bytes[1], sizes) && Takes(f[2], bytes[2], sizes) && Takes(f[3], bytes[3], sizes);
    assert StartsRight(f, offs, at, bytes, 0) && StartsRight(f, offs, at, bytes, 1) && StartsRight(f, offs, at, bytes, 2) && StartsRight(f, offs, at, bytes, 3);
    assert largest == 8;
  }

  lemma SecondSample(offs: seq<int>, size: int, largest: int, sizes: seq<int>, align: seq<int>)
    requires InPlace(Second(), offs, size, largest, sizes, align) && |sizes| == |align| == 2 && sizes[0] == 32 && align[0] == 8
    ensures offs == [0, 8] && size == 72
  {
    hide Second;
    var f := Second();
    var at: seq<int>, bytes: seq<int> :| PlacedBy(f, offs, size, largest, at, bytes, sizes, align);
    assert Base(f[1].desc) == Base(Struct(0)) && Elements(f[0].desc) == 1 && Elements(f[1].desc) == 2 * Elements(Struct(0));
    assert GoesAt(f[0], at[0], align) && GoesAt(f[1], at[1], align) && Takes(f[0], bytes[0], sizes) && Takes(f[1], bytes[1], sizes);
    assert StartsRight(f, offs, at, bytes, 0) && StartsRight(f, offs, at, bytes, 1);
  }

  /** Their layout, in bytes. */
  method LayOutSamples() returns (first: seq<int>, second: seq<int>, firstSize: int, secondSize: int)
    ensures first == [0, 8, 16, 24] && second == [0, 8] && firstSize == 32 && secondSize == 72
  {
    hide First, Second, Samples, InPlace, Settled, CanLayOut, FilledTo, FieldSizes;
    var sz, al := new int[2], new int[2];
    var offs, fsz := new seq<int>[2], new seq<int>[2];
    offs[0], offs[1] := [0, 0, 0, 0], [0, 0];
    fsz[0], fsz[1] := [1, 8, 2, 8], [4, -1];
    FMlocalizeStructs(Samples(), sz, al, offs, fsz);
    SamplesCan();
    FirstSample(offs[0], sz[0], al[0], sz[..], al[..]);
    SecondSample(offs[1], sz[1], al[1], sz[..], al[..]);
    first, second, firstSize, secondSize := offs[0], offs[1], sz[0], sz[1];
  }
}
