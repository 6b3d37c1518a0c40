/** Where a size-changing conversion puts the dynamic parts of a record: each block moves by
    what the blocks before it grew or shrank. */
module Resize {
  /** What a pointer of the message leads to: text, one struct, or an array; with the pointers
      inside, in the order the converter meets them. `delta` is the change per element. */
  datatype Target =
    | Text(len: nat)
    | One(srcSize: nat, destSize: nat, inside: seq<Visit>)
    | Many(elements: nat, itemSize: nat, delta: int, inside: seq<Visit>)

  /** A pointer field: the offset it holds, 0 for NULL. */
  datatype Visit = Visit(offset: nat, target: Target)

  function SrcSize(t: Target): nat {
    match t
    case Text(len) => len
    case One(s, _, _) => s
    case Many(n, s, _, _) => n * s
  }

  /** The encoder emits nothing empty; an element cannot shrink below nothing. */
  predicate Sized(t: Target) {
    SrcSize(t) > 0 && (t.Many? ==> t.itemSize + t.delta >= 0)
  }

  function DestSize(t: Target): (n: int)
  {
    match t
    case Text(len) => len
    case One(_, d, _) => d
    case Many(n, s, d, _) => n * s + n * d
  }

  /** What the conversion adds to the adjustment: a single struct is not counted. */
  function Growth(t: Target): int {
    if t.Many? then t.elements * t.delta else 0
  }

  /** A block converted, where it is now and where it was. */
  datatype Block = Block(dest: int, size: int, src: nat, aligned: bool)

  /** The address a pointer field of the destination is set to, and the offset it held. */
  datatype Given = Given(offset: nat, dest: int)

  /** dest_offset_adjust and cur_offset, the blocks placed and the pointers set. */
  datatype Status = Status(adjust: int, cur: nat, log: seq<Block>, ptrs: seq<Given>)

  function Initial(adjust: int): Status {
    Status(adjust, 0, [], [])
  }

  function Padding(a: int): (p: int)
    ensures 0 <= p < 8 && (a + p) % 8 == 0
  {
    (8 - a % 8) % 8
  }

  /** What follows a pointer. */
  function Follow(v: Visit, base: int, st: Status): (r: Status)
    decreases v, 1
  {
    if v.offset == 0 then st
    else if v.target.Text? then
      var dest := base + v.offset + st.adjust;
      st.(log := st.log + [Block(dest, v.target.len, v.offset, false)], ptrs := st.ptrs + [Given(v.offset, dest)])
    else
      var adjust := st.adjust + Padding(base + v.offset + st.adjust);
      var ptrs := st.ptrs + [Given(v.offset, base + v.offset + adjust)];
      if v.offset <= st.cur then st.(adjust := adjust, ptrs := ptrs)
      else
        var log := st.log + [Block(base + v.offset + adjust, DestSize(v.target), v.offset, true)];
        Walk(v.target.inside, base, Status(adjust + Growth(v.target), v.offset, log, ptrs))
  }

  function Walk(vs: seq<Visit>, base: int, st: Status): (r: Status)
    decreases vs, 0
  {
    if vs == [] then st else Walk(vs[1..], base, Follow(vs[0], base, st))
  }

  // ----- the order of the message

  /** `end` is where the last block of the source ended, `cur` the offset of the last one that
      is not text. */
  datatype Mark = Mark(cur: nat, end: nat)

  /** First visits come in the order of the message, blocks that do not overlap; other
      visits go back. Single structs must not grow. */
  predicate InOrder(vs: seq<Visit>, m: Mark)
    decreases vs, 0
  {
    vs == [] || (InOrder1(vs[0], m) && InOrder(vs[1..], After(vs[0], m)))
  }

  predicate InOrder1(v: Visit, m: Mark)
    decreases v, 1
  {
    && Sized(v.target)
    && (v.offset == 0 || (!v.target.Text? && v.offset <= m.cur)
        || (v.offset >= m.end && (v.target.One? ==> v.target.destSize <= v.target.srcSize)
            && (!v.target.Text? ==> InOrder(v.target.inside, Mark(v.offset, v.offset + SrcSize(v.target))))))
  }

  function After(v: Visit, m: Mark): (r: Mark)
    decreases v, 1
  {
    if v.offset == 0 || (!v.target.Text? && v.offset <= m.cur) then m
    else if v.target.Text? then Mark(m.cur, v.offset + v.target.len)
    else AfterAll(v.target.inside, Mark(v.offset, v.offset + SrcSize(v.target)))
  }

  function AfterAll(vs: seq<Visit>, m: Mark): (r: Mark)
    decreases vs, 0
  {
    if vs == [] then m else AfterAll(vs[1..], After(vs[0], m))
  }

  // ----- the blocks do not collide

  ghost predicate Apart(log: seq<Block>) {
    forall i, j :: 0 <= i < j < |log| ==> Before(log[i], log[j])
  }

  ghost predicate Before(b: Block, c: Block) {
    b.dest + b.size <= c.dest && b.src < c.src
  }

  ghost predicate Aligned(log: seq<Block>) {
    forall i :: 0 <= i < |log| ==> (log[i].aligned ==> log[i].dest % 8 == 0) && log[i].size >= 0
  }

  /** Everything placed so far ends before where the next block of the source can go. */
  ghost predicate Inv(base: int, m: Mark, st: Status) {
    && st.cur == m.cur && Apart(st.log) && Aligned(st.log)
    && forall i :: 0 <= i < |st.log| ==> Ended(st.log[i], base, m, st.adjust)
  }

  ghost predicate Ended(b: Block, base: int, m: Mark, adjust: int) {
    b.dest + b.size <= base + m.end + adjust && b.src < m.end
  }

  lemma Placed(base: int, m: Mark, st: Status, b: Block, m1: Mark, st1: Status)
    requires Inv(base, m, st) && b.src >= m.end && b.dest >= base + b.src + st.adjust && b.size >= 0
    requires b.aligned ==> b.dest % 8 == 0
    requires st1.log == st.log + [b] && st1.cur == m1.cur && m1.end >= m.end
    requires base + m1.end + st1.adjust >= b.dest + b.size && b.src < m1.end
    ensures Inv(base, m1, st1)
  {
    forall i | 0 <= i < |st1.log|
      ensures Ended(st1.log[i], base, m1, st1.adjust)
    {
      if i < |st.log| { assert Ended(st.log[i], base, m, st.adjust); }
    }
    forall i, j | 0 <= i < j < |st1.log|
      ensures Before(st1.log[i], st1.log[j])
    {
      if j < |st.log| { assert Before(st.log[i], st.log[j]); } else { assert Ended(st.log[i], base, m, st.adjust); }
    }
  }

  lemma Padded(base: int, m: Mark, st: Status, adjust: int, ptrs: seq<Given>)
    requires Inv(base, m, st) && adjust >= st.adjust
    ensures Inv(base, m, st.(adjust := adjust, ptrs := ptrs))
  {
    forall i | 0 <= i < |st.log|
      ensures Ended(st.log[i], base, m, adjust)
    {
      assert Ended(st.log[i], base, m, st.adjust);
    }
  }

  lemma {:induction false} FollowApart(v: Visit, base: int, m: Mark, st: Status)
    requires InOrder1(v, m) && Inv(base, m, st)
    ensures Inv(base, After(v, m), Follow(v, base, st))
    decreases v, 1
  {
    hide Inv;
    InvCur(base, m, st);
    if v.offset != 0 {
      if v.target.Text? {
        var b := Block(base + v.offset + st.adjust, v.target.len, v.offset, false);
        Placed(base, m, st, b, Mark(m.cur, v.offset + v.target.len), Follow(v, base, st));
      } else {
        var adjust := st.adjust + Padding(base + v.offset + st.adjust);
        var ptrs := st.ptrs + [Given(v.offset, base + v.offset + adjust)];
        if v.offset <= st.cur {
          Padded(base, m, st, adjust, ptrs);
        } else {
          var t := v.target;
          var b := Block(base + v.offset + adjust, DestSize(t), v.offset, true);
          var m1 := Mark(v.offset, v.offset + SrcSize(t));
          var st1 := Status(adjust + Growth(t), v.offset, st.log + [b], ptrs);
          SizesAdd(t);
          Placed(base, m, st, b, m1, st1);
          WalkApart(t.inside, base, m1, st1);
        }
      }
    }
  }

  lemma InvCur(base: int, m: Mark, st: Status)
    requires Inv(base, m, st)
    ensures st.cur == m.cur
  {
  }

  lemma SizesAdd(t: Target)
    requires Sized(t)
    ensures DestSize(t) >= 0
  {
    if t.Many? {
      assert t.elements * t.itemSize + t.elements * t.delta == t.elements * (t.itemSize + t.delta);
    }
  }

  lemma {:induction false} WalkApart(vs: seq<Visit>, base: int, m: Mark, st: Status)
    requires InOrder(vs, m) && Inv(base, m, st)
    ensures Inv(base, AfterAll(vs, m), Walk(vs, base, st))
    decreases vs, 0
  {
    hide Inv;
    if vs != [] {
      FollowApart(vs[0], base, m, st);
      WalkApart(vs[1..], base, After(vs[0], m), Follow(vs[0], base, st));
    }
  }

  /** Main result. Converting a record whose message is in order: the dynamic blocks of the
      destination are pairwise disjoint, in source order, and 8-aligned unless they are text,
      for any mix of growing and shrinking elements and any nesting. */
  lemma BlocksApart(vs: seq<Visit>, base: int, adjust: int, start: nat)
    requires InOrder(vs, Mark(0, start))
    ensures var log := Walk(vs, base, Initial(adjust)).log; Apart(log) && Aligned(log)
  {
    WalkApart(vs, base, Mark(0, start), Initial(adjust));
  }

  // ----- where the converter goes wrong

  lemma NoPadding(a: int)
    requires a % 8 == 0
    ensures Padding(a) == 0
  {
  }

  lemma PaddingLeast(b: int, a: int)
    requires a % 8 == 0
    ensures b + Padding(b) == a <==> a - 8 < b <= a
  {
    var p := Padding(b);
    if a - 8 < b <= a {
      assert -8 < b + p - a < 8 && (b + p - a) % 8 == 0;
    }
  }

  lemma FollowLeaf(v: Visit, base: int, st: Status)
    requires !v.target.Text? && v.target.inside == [] && v.offset > st.cur && (v.target.Many? ==> v.target.delta == 0)
    ensures var adjust := st.adjust + Padding(base + v.offset + st.adjust);
      Follow(v, base, st) == Status(adjust, v.offset, st.log + [Block(base + v.offset + adjust, DestSize(v.target), v.offset, true)],
                                    st.ptrs + [Given(v.offset, base + v.offset + adjust)])
  {
    hide Padding;
    assert Growth(v.target) == 0;
  }

  lemma WalkTwo(u: Visit, v: Visit, base: int, st: Status)
    ensures Walk([u, v], base, st) == Follow(v, base, Follow(u, base, st))
  {
    hide Follow;
    assert [u, v][1..] == [v] && [v][1..] == [];
    assert Walk([v], base, Follow(u, base, st)) == Walk([], base, Follow(v, base, Follow(u, base, st)));
  }

  /** The pointers that are not NULL, those inside what they lead to included. */
  function Pointers(vs: seq<Visit>): nat
    decreases vs, 0
  {
    if vs == [] then 0 else Pointers1(vs[0]) + Pointers(vs[1..])
  }

  function Pointers1(v: Visit): nat
    decreases v, 1
  {
    if v.offset == 0 then 0 else if v.target.Text? then 1 else 1 + Pointers(v.target.inside)
  }

  /** Each pointer leads further into the message than all before it. */
  predicate Onward(vs: seq<Visit>, cur: nat)
    decreases vs, 0
  {
    vs == [] || (Onward1(vs[0], cur) && Onward(vs[1..], CurAfter(vs[0], cur)))
  }

  predicate Onward1(v: Visit, cur: nat)
    decreases v, 1
  {
    v.offset == 0 || v.target.Text? || (v.offset > cur && Onward(v.target.inside, v.offset))
  }

  /** cur_offset once a pointer has been followed. */
  function CurAfter(v: Visit, cur: nat): nat
    decreases v, 1
  {
    if v.offset == 0 || v.target.Text? || v.offset <= cur then cur else CurAll(v.target.inside, v.offset)
  }

  function CurAll(vs: seq<Visit>, cur: nat): nat
    decreases vs, 0
  {
    if vs == [] then cur else CurAll(vs[1..], CurAfter(vs[0], cur))
  }

  /** Every pointer has its block converted if and only if each leads further into the message
      than those before it. The pointers of a record are followed in the order of the target's
      fields, so without sharing this asks that they lie there as in the source: what a pointer
      out of that order leads to is passed over. */
  lemma {:induction false} AllConverted(vs: seq<Visit>, base: int, st: Status)
    ensures |Walk(vs, base, st).log| <= |st.log| + Pointers(vs) && Walk(vs, base, st).cur == CurAll(vs, st.cur)
    ensures |Walk(vs, base, st).log| == |st.log| + Pointers(vs) <==> Onward(vs, st.cur)
    decreases vs, 0
  {
    hide Follow, Pointers1, Onward1, CurAfter;
    if vs != [] {
      OneConverted(vs[0], base, st);
      AllConverted(vs[1..], base, Follow(vs[0], base, st));
    }
  }

  lemma {:induction false} OneConverted(v: Visit, base: int, st: Status)
    ensures |Follow(v, base, st).log| <= |st.log| + Pointers1(v) && Follow(v, base, st).cur == CurAfter(v, st.cur)
    ensures |Follow(v, base, st).log| == |st.log| + Pointers1(v) <==> Onward1(v, st.cur)
    decreases v, 1
  {
    hide Padding, DestSize, Growth, Walk;
    if v.offset > st.cur && !v.target.Text? {
      var t := v.target;
      var adjust := st.adjust + Padding(base + v.offset + st.adjust);
      var log := st.log + [Block(base + v.offset + adjust, DestSize(t), v.offset, true)];
      AllConverted(t.inside, base, Status(adjust + Growth(t), v.offset, log, st.ptrs + [Given(v.offset, base + v.offset + adjust)]));
    }
  }

  /** Two pointers in the other order: the lower block is not converted, though its pointer is
      set. */
  lemma PassedOver(u: Visit, v: Visit, base: int, adjust: int)
    requires 0 < v.offset < u.offset && !u.target.Text? && !v.target.Text? && u.target.inside == []
    ensures var st := Walk([u, v], base, Initial(adjust));
      |st.log| == 1 && st.log[0].src == u.offset && |st.ptrs| == 2 && st.ptrs[1].offset == v.offset
  {
    hide Padding, DestSize, Growth;
    WalkTwo(u, v, base, Initial(adjust));
    assert Walk([], base, Follow(u, base, Initial(adjust))) == Follow(u, base, Initial(adjust));
  }

  /** A single struct is not counted when it grows: the block after it is clear of it exactly
      when the gap in the message, padded, makes up for the growth. */
  lemma SingleExact(base: int, adjust: int, first: nat, srcSize: nat, destSize: nat, second: nat)
    requires 0 < first && srcSize > 0 && second >= first + srcSize && (base + first + adjust) % 8 == 0
    ensures var st := Walk([Visit(first, One(srcSize, destSize, [])), Visit(second, Many(1, 8, 0, []))], base, Initial(adjust));
      && |st.log| == 2 && st.log[0] == Block(base + first + adjust, destSize, first, true)
      && (st.log[0].dest + st.log[0].size <= st.log[1].dest <==> destSize <= (second - first + 7) / 8 * 8)
  {
    hide Follow, Walk, Padding;
    var u, v := Visit(first, One(srcSize, destSize, [])), Visit(second, Many(1, 8, 0, []));
    var s0 := Initial(adjust);
    NoPadding(base + first + adjust);
    FollowLeaf(u, base, s0);
    var s1 := Status(adjust, first, [Block(base + first + adjust, destSize, first, true)], [Given(first, base + first + adjust)]);
    assert s0.log + s1.log == s1.log && s0.ptrs + s1.ptrs == s1.ptrs;
    FollowLeaf(v, base, s1);
    var s2 := Follow(v, base, s1);
    WalkTwo(u, v, base, s0);
    var d := base + second + adjust;
    assert s2.log[1].dest == d + Padding(d);
    var k := (second - first + 7) / 8 * 8;
    assert base + first + adjust + k == d + Padding(d) by {
      PaddingLeast(d, base + first + adjust + k);
    }
  }

  // ----- the converter

  /** `log` are the blocks written to the destination, `ptrs` the pointer fields set there. */
  class Converter {
    const base: int
    var adjust: int
    var cur: nat
    var log: seq<Block>
    var ptrs: seq<Given>

    constructor (base: int, adjust: int)
      ensures Now() == Initial(adjust) && this.base == base
    {
      this.base := base;
      this.adjust := adjust;
      cur, log, ptrs := 0, [], [];
    }

    ghost function Now(): Status
      reads this
    {
      Status(adjust, cur, log, ptrs)
    }

    /** new_convert_address_field: the address a field gets, NULL for offset 0. */
    method ConvertAddress(offset: nat, aligned: bool) returns (dest: int)
      modifies this`adjust, this`ptrs
      ensures offset == 0 ==> dest == 0 && adjust == old(adjust) && ptrs == old(ptrs)
      ensures offset != 0 ==> adjust == old(adjust) + (if aligned then Padding(base + offset + old(adjust)) else 0)
      ensures offset != 0 ==> dest == base + offset + adjust && ptrs == old(ptrs) + [Given(offset, dest)]
    {
      dest := 0;
      if offset != 0 {
        dest := base + offset + adjust;
        if aligned && dest % 8 != 0 {
          var short := 8 - dest % 8;
          dest := dest + short;
          adjust := adjust + short;
        }
        ptrs := ptrs + [Given(offset, dest)];
      }
    }

    /** new_convert_field on a pointer or string. */
    method ConvertField(v: Visit) returns (dest: int)
      modifies this
      ensures Now() == Follow(v, base, old(Now()))
      decreases v, 1
    {
      dest := ConvertAddress(v.offset, !v.target.Text?);
      if v.offset == 0 { return; }
      match v.target {
        case Text(len) =>
          log := log + [Block(dest, len, v.offset, false)];
        case One(_, _, inside) =>
          if v.offset <= cur { return; }
          cur := v.offset;
          log := log + [Block(dest, DestSize(v.target), v.offset, true)];
          ConvertRecords(inside);
        case Many(elements, itemSize, delta, inside) =>
          if v.offset <= cur { return; }
          cur := v.offset;
          log := log + [Block(dest, DestSize(v.target), v.offset, true)];
          adjust := adjust + elements * delta;
          ConvertRecords(inside);
      }
    }

    /** The pointers of what was reached, in order. */
    method ConvertRecords(vs: seq<Visit>)
      modifies this
      ensures Now() == Walk(vs, base, old(Now()))
      decreases vs, 0
    {
      if vs != [] {
        var _ := ConvertField(vs[0]);
        ConvertRecords(vs[1..]);
      }
    }
  }

  /** Convert a record: the blocks written, which do not collide, and the pointers set. */
  method ConvertAll(vs: seq<Visit>, base: int, adjust: int, ghost start: nat) returns (log: seq<Block>, ptrs: seq<Given>)
    requires InOrder(vs, Mark(0, start))
    ensures log == Walk(vs, base, Initial(adjust)).log && ptrs == Walk(vs, base, Initial(adjust)).ptrs
    ensures Apart(log) && Aligned(log)
  {
    var c := new Converter(base, adjust);
    c.ConvertRecords(vs);
    log, ptrs := c.log, c.ptrs;
    BlocksApart(vs, base, adjust, start);
  }

  // ----- one conversion, number by number

  /** Three elements that grow by 4 bytes, a string, a struct with a NULL and a string inside,
      and the elements once more. */
  function SampleVisits(): (vs: seq<Visit>)
    ensures |vs| == 4
  {
    [Visit(16, Many(3, 4, 4, [])), Visit(28, Text(5)), Visit(40, One(16, 12, SampleInside())), Visit(16, Many(3, 4, 4, []))]
  }

  function SampleInside(): seq<Visit> {
    [Visit(0, Text(1)), Visit(56, Text(2))]
  }

  lemma SampleInsideWalk(st: Status)
    requires st.adjust == 16
    ensures Walk(SampleInside(), 4096, st) == st.(log := st.log + [Block(4168, 2, 56, false)], ptrs := st.ptrs + [Given(56, 4168)])
    ensures InOrder(SampleInside(), Mark(40, 56)) && AfterAll(SampleInside(), Mark(40, 56)) == Mark(40, 58)
  {
    var vs := SampleInside();
    assert vs[1..] == [Visit(56, Text(2))] && vs[1..][1..] == [];
    var x := Follow(vs[0], 4096, st);
    assert Walk([], 4096, Follow(vs[1], 4096, x)) == Follow(vs[1], 4096, x);
    assert AfterAll([], Mark(40, 58)) == Mark(40, 58);
    assert InOrder([], Mark(40, 58));
  }

  lemma SampleOrder()
    ensures InOrder(SampleVisits(), Mark(0, 16))
  {
    hide SampleInside;
    var vs := SampleVisits();
    SampleInsideWalk(Status(16, 40, [], []));
    assert vs[1..] == [vs[1], vs[2], vs[3]] && vs[1..][1..] == [vs[2], vs[3]] && [vs[2], vs[3]][1..] == [vs[3]] && [vs[3]][1..] == [];
    assert AfterAll([], Mark(16, 28)) == Mark(16, 28);
    assert After(vs[0], Mark(0, 16)) == Mark(16, 28);
    assert After(vs[1], Mark(16, 28)) == Mark(16, 33);
    assert After(vs[2], Mark(16, 33)) == Mark(40, 58);
    assert InOrder([vs[3]], Mark(40, 58)) by { assert InOrder([], Mark(40, 58)); }
    assert InOrder([vs[2], vs[3]], Mark(16, 33));
  }

  /** Where every block and every pointer ends up. */
  method KnownPlaces() returns (log: seq<Block>, ptrs: seq<Given>)
    ensures log == [Block(4112, 24, 16, true), Block(4136, 5, 28, false), Block(4152, 12, 40, true), Block(4168, 2, 56, false)]
    ensures ptrs == [Given(16, 4112), Given(28, 4136), Given(40, 4152), Given(56, 4168), Given(16, 4128)]
  {
    hide Walk, InOrder;
    SampleOrder();
    log, ptrs := ConvertAll(SampleVisits(), 4096, 0, 16);
    SampleWalk();
  }

  lemma SampleWalk()
    ensures var st := Walk(SampleVisits(), 4096, Initial(0));
      && st.log == [Block(4112, 24, 16, true), Block(4136, 5, 28, false), Block(4152, 12, 40, true), Block(4168, 2, 56, false)]
      && st.ptrs == [Given(16, 4112), Given(28, 4136), Given(40, 4152), Given(56, 4168), Given(16, 4128)]
  {
    hide SampleInside, Follow, Walk;
    var vs := SampleVisits();
    WalkFour(vs, 4096, Initial(0));
    SampleFirst();
    SampleThird();
  }

  lemma WalkFour(vs: seq<Visit>, base: int, st: Status)
    requires |vs| == 4
    ensures Walk(vs, base, st) == Follow(vs[3], base, Follow(vs[2], base, Follow(vs[1], base, Follow(vs[0], base, st))))
  {
    hide Follow;
    assert vs[1..][1..] == [vs[2], vs[3]] && vs[1..][0] == vs[1];
    WalkTwo(vs[2], vs[3], base, Follow(vs[1], base, Follow(vs[0], base, st)));
    assert Walk(vs[1..], base, Follow(vs[0], base, st)) == Walk([vs[2], vs[3]], base, Follow(vs[1], base, Follow(vs[0], base, st)));
  }

  lemma SampleFirst()
    ensures var vs := SampleVisits();
      Follow(vs[1], 4096, Follow(vs[0], 4096, Initial(0))) ==
        Status(12, 16, [Block(4112, 24, 16, true), Block(4136, 5, 28, false)], [Given(16, 4112), Given(28, 4136)])
  {
    hide SampleInside;
    var vs := SampleVisits();
    var s1 := Follow(vs[0], 4096, Initial(0));
    assert Walk([], 4096, Status(12, 16, [Block(4112, 24, 16, true)], [Given(16, 4112)])) == Status(12, 16, [Block(4112, 24, 16, true)], [Given(16, 4112)]);
    assert s1 == Status(12, 16, [Block(4112, 24, 16, true)], [Given(16, 4112)]);
  }

  lemma SampleThird()
    ensures var vs := SampleVisits();
      var st := Follow(vs[3], 4096, Follow(vs[2], 4096,
        Status(12, 16, [Block(4112, 24, 16, true), Block(4136, 5, 28, false)], [Given(16, 4112), Given(28, 4136)])));
      && st.log == [Block(4112, 24, 16, true), Block(4136, 5, 28, false), Block(4152, 12, 40, true), Block(4168, 2, 56, false)]
      && st.ptrs == [Given(16, 4112), Given(28, 4136), Given(40, 4152), Given(56, 4168), Given(16, 4128)]
  {
    hide SampleInside, Walk;
    var vs := SampleVisits();
    var log, ptrs := [Block(4112, 24, 16, true), Block(4136, 5, 28, false)], [Given(16, 4112), Given(28, 4136)];
    SampleInsideWalk(Status(16, 40, log + [Block(4152, 12, 40, true)], ptrs + [Given(40, 4152)]));
    var s3 := Follow(vs[2], 4096, Status(12, 16, log, ptrs));
    assert s3 == Status(16, 40, log + [Block(4152, 12, 40, true)] + [Block(4168, 2, 56, false)], ptrs + [Given(40, 4152)] + [Given(56, 4168)]);
  }
}
