/** What a plan leaves alone needs no change, and converting what it keeps converts the record. */
module PlanMeaning {
  import opened Bytes
  import opened Planner
  import F = FieldConvert

  // ----- which fields are planned

  /** The field is the same on both sides: count, type, byte order, float format, size, and no
      pointer inside and no array to transpose; or it is a record by value that needs nothing. */
  predicate LeftOut(p: Pair, s: Setting) {
    Same(p, s) || (p.unknown && !p.dynamic && p.sub == Some(NoneRequired))
  }

  predicate Same(p: Pair, s: Setting) {
    && p.srcElements == p.destElements && p.srcType == p.destType && p.srcSize == p.destSize
    && !p.unknown && p.flat && p.floatOk && !s.byteReversal && !(s.swapArrays && p.multiDim)
  }

  function Chosen(ps: seq<Pair>, s: Setting): seq<Pair> {
    if ps == [] then [] else (if LeftOut(ps[0], s) then [] else [ps[0]]) + Chosen(ps[1..], s)
  }

  lemma {:induction false} ChosenMore(ps: seq<Pair>, p: Pair, s: Setting)
    ensures Chosen(ps + [p], s) == Chosen(ps, s) + if LeftOut(p, s) then [] else [p]
    decreases |ps|
  {
    hide LeftOut;
    if ps == [] {
      assert [p][1..] == [] && ps + [p] == [p];
    } else {
      assert (ps + [p])[1..] == ps[1..] + [p];
      ChosenMore(ps[1..], p, s);
    }
  }

  lemma DecideLeaves(conv: Class, p: Pair, s: Setting)
    ensures conv.Rank() <= 1 && Decide(conv, p, s).Skip? ==> LeftOut(p, s)
    ensures conv.Rank() <= 1 && Decide(conv, p, s).Convert? ==> !LeftOut(p, s) && Decide(conv, p, s).c.Rank() <= 1
    ensures conv.Rank() >= 2 ==> !Decide(conv, p, s).Skip? && (Decide(conv, p, s).Convert? ==> Decide(conv, p, s).c == conv)
    ensures Decide(conv, p, s).Restart? ==> Decide(conv, p, s).c.Rank() >= 2
  {
  }

  /** Main result. A plan that converts in place keeps exactly the fields that are not the same on
      both sides, in order; any other plan keeps all fields. */
  lemma {:induction false} PlanExact(conv: Class, ps: seq<Pair>, i: nat, done: seq<Pair>, s: Setting)
    requires i <= |ps| && done == if conv.Rank() <= 1 then Chosen(ps[..i], s) else ps[..i]
    ensures var r := Settle(conv, ps, i, done, s);
      r.Some? ==> r.value.fields == if r.value.kind.Rank() <= 1 then Chosen(ps, s) else ps
    decreases 3 - conv.Rank(), |ps| - i
  {
    hide Decide, LeftOut;
    if i == |ps| {
      assert ps[..i] == ps;
    } else {
      DecideLeaves(conv, ps[i], s);
      assert ps[..i + 1] == ps[..i] + [ps[i]] && ps[..0] == [];
      ChosenMore(ps[..i], ps[i], s);
      match Decide(conv, ps[i], s)
      case Fail =>
      case Skip => PlanExact(conv, ps, i + 1, done, s);
      case Restart(c) => PlanExact(c, ps, 0, [], s);
      case Convert(c) => PlanExact(c, ps, i + 1, done + [ps[i]], s);
    }
  }

  lemma {:induction false} ChosenIs(ps: seq<Pair>, s: Setting)
    ensures forall p :: p in Chosen(ps, s) <==> p in ps && !LeftOut(p, s)
  {
    hide LeftOut;
    if ps != [] { ChosenIs(ps[1..], s); }
  }

  /** Main result. A field the plan leaves out, other than a record by value, needs no change: it
      lies at one offset, converting its bytes gives the same bytes, and it holds no pointer, has
      nothing to transpose and one float format. */
  lemma LeftOutSame(start: Class, ps: seq<Pair>, s: Setting, k: nat, b: seq<byte>, signed: bool)
    requires k < |ps| && Settle(start, ps, 0, [], s).Some?
    requires ps[k] !in Settle(start, ps, 0, [], s).value.fields && !(ps[k].unknown && ps[k].sub.Some?)
    requires |b| == ps[k].srcSize
    ensures var p := ps[k];
      && p.destOffset == p.srcOffset && p.destElements == p.srcElements && p.destType == p.srcType
      && F.Converted(b, s.byteReversal, signed, p.destSize) == b
      && p.flat && p.floatOk && !(s.swapArrays && p.multiDim)
  {
    PlanExact(start, ps, 0, [], s);
    ChosenIs(ps, s);
    SettleSound(start, ps, 0, [], s);
    assert Fit(ps[k], Settle(start, ps, 0, [], s).value.kind, s);
  }

  /** A plan is made if and only if every field is found with its count and type, when no field is
      a record by value. */
  lemma {:induction false} PlanMade(conv: Class, ps: seq<Pair>, i: nat, done: seq<Pair>, s: Setting)
    requires i <= |ps| && forall k :: 0 <= k < |ps| ==> !(ps[k].unknown && ps[k].sub.Some?)
    requires forall k :: 0 <= k < i ==> ps[k].found && ps[k].srcElements == ps[k].destElements && ps[k].srcType == ps[k].destType
    ensures Settle(conv, ps, i, done, s).Some? <==>
      forall k :: 0 <= k < |ps| ==> ps[k].found && ps[k].srcElements == ps[k].destElements && ps[k].srcType == ps[k].destType
    decreases 3 - conv.Rank(), |ps| - i
  {
    if i < |ps| {
      match Decide(conv, ps[i], s)
      case Fail =>
      case Skip => PlanMade(conv, ps, i + 1, done, s);
      case Restart(c) => PlanMade(c, ps, 0, [], s);
      case Convert(c) => PlanMade(c, ps, i + 1, done + [ps[i]], s);
    }
  }

  // ----- the class in terms of the fields

  /** What a plan in place restarts for: a moved field, an array that changes size, an array to
      transpose, a record by value that needs a buffer, a dynamic part that changes size. */
  lemma TriggerExact(p: Pair, s: Setting)
    ensures Trigger(p, s).Some? <==>
      || p.srcOffset != p.destOffset
      || (p.srcElements != 1 && p.srcSize != p.destSize)
      || (s.swapArrays && p.multiDim)
      || (p.unknown && !p.dynamic && p.sub == Some(Buffered))
      || (p.dynamic && p.srcSize != p.destSize)
    ensures Trigger(p, s) == Some(CopyDynamic) <==>
      && p.srcOffset == p.destOffset && !(p.srcElements != 1 && p.srcSize != p.destSize)
      && ((s.swapArrays && p.multiDim) || (p.dynamic && p.srcSize != p.destSize))
  {
  }

  /** Without arrays to transpose the class is the least that will do. */
  lemma ClassExact(ps: seq<Pair>, s: Setting)
    requires !s.swapArrays && Settle(NoneRequired, ps, 0, [], s).Some?
    requires forall k :: 0 <= k < |ps| ==> !(ps[k].unknown && ps[k].sub.Some?)
    ensures var kind := Settle(NoneRequired, ps, 0, [], s).value.kind;
      && (kind == CopyDynamic <==> exists k :: 0 <= k < |ps| && ps[k].dynamic && ps[k].srcSize != ps[k].destSize)
      && (kind.Rank() <= 1 <==> forall k :: 0 <= k < |ps| ==>
            ps[k].srcOffset == ps[k].destOffset && (ps[k].srcSize == ps[k].destSize || (ps[k].srcElements == 1 && !ps[k].dynamic)))
      && (kind == NoneRequired <==> forall k :: 0 <= k < |ps| ==> ps[k].srcOffset == ps[k].destOffset && LeftOut(ps[k], s))
  {
    SettleLeast(NoneRequired, ps, 0, [], s, NoneRequired);
    var kind := Settle(NoneRequired, ps, 0, [], s).value.kind;
    forall k | 0 <= k < |ps|
      ensures Needs(ps[k], s).Rank() <= kind.Rank()
    {
      NeededCovers(NoneRequired, ps, s, k);
    }
    Attained(ps, s);
  }

  /** The class needed is one that some field needs. */
  lemma {:induction false} Attained(ps: seq<Pair>, s: Setting)
    ensures var c := Needed(NoneRequired, ps, s); c == NoneRequired || exists k :: 0 <= k < |ps| && Needs(ps[k], s) == c
  {
    hide Needs;
    if ps != [] {
      Attained(ps[1..], s);
      var c := Needed(NoneRequired, ps[1..], s);
      if c != NoneRequired && Needed(NoneRequired, ps, s) == c {
        var k :| 0 <= k < |ps[1..]| && Needs(ps[1..][k], s) == c;
        assert ps[k + 1] == ps[1..][k];
      }
    }
  }

  // ----- converting the planned fields

  function Specs(ps: seq<Pair>, s: Setting, signed: Pair -> bool): (fs: seq<F.FieldSpec>)
    ensures |fs| == |ps| && forall k :: 0 <= k < |ps| ==> fs[k] == F.SpecOf(ps[k], s, signed(ps[k]))
  {
    seq(|ps|, k requires 0 <= k < |ps| => F.SpecOf(ps[k], s, signed(ps[k])))
  }

  /** The chosen fields keep their order. */
  lemma {:induction false} ChosenOrdered(ps: seq<Pair>, s: Setting, signed: Pair -> bool, base: nat)
    requires F.Ordered(Specs(ps, s, signed), base, false)
    ensures F.Ordered(Specs(Chosen(ps, s), s, signed), base, false)
    decreases |ps|
  {
    hide LeftOut, F.Before;
    if ps != [] {
      var t := ps[1..];
      forall k, l | 0 <= k < l < |t|
        ensures F.Before(Specs(t, s, signed)[k], Specs(t, s, signed)[l], base)
      {
        assert t[k] == ps[k + 1] && t[l] == ps[l + 1];
        assert F.Before(Specs(ps, s, signed)[k + 1], Specs(ps, s, signed)[l + 1], base);
      }
      ChosenOrdered(t, s, signed, base);
      ChosenIs(t, s);
      var c := Chosen(t, s);
      forall l | 0 <= l < |c|
        ensures F.Before(F.SpecOf(ps[0], s, signed(ps[0])), F.SpecOf(c[l], s, signed(c[l])), base)
      {
        assert c[l] in t;
        var j :| 0 <= j < |t| && t[j] == c[l];
        assert F.Before(Specs(ps, s, signed)[0], Specs(ps, s, signed)[j + 1], base);
      }
    }
  }

  /** Main result. Converting in place only the fields of the plan leaves every requested field
      converted. */
  method ConvertPlanned(ps: seq<Pair>, s: Setting, start: Class, signed: Pair -> bool, buf: array<byte>, base: nat)
    requires Settle(start, ps, 0, [], s).Some? && Settle(start, ps, 0, [], s).value.kind.Rank() <= 1
    requires forall k :: 0 <= k < |ps| ==> !ps[k].unknown
    requires F.Ordered(Specs(ps, s, signed), base, false) && F.Room(Specs(ps, s, signed), base, base, buf.Length, buf.Length)
    modifies buf
    ensures forall k :: 0 <= k < |ps| ==>
      F.FieldHolds(old(buf[..]), buf[..], F.SpecOf(ps[k], s, signed(ps[k])), base, base, ps[k].srcElements)
  {
    hide Settle, F.FieldHolds, F.Before, F.Converted, LeftOut;
    ghost var plan := Settle(start, ps, 0, [], s).value;
    PlanExact(start, ps, 0, [], s);
    SettleSound(start, ps, 0, [], s);
    var chosen := Chosen(ps, s);
    var fs := Specs(chosen, s, signed);
    ChosenIs(ps, s);
    ChosenOrdered(ps, s, signed, base);
    forall k | 0 <= k < |fs|
      ensures F.InPlace(fs[k]) && F.SrcEnd(fs[k], base) <= buf.Length && F.DestEnd(fs[k], base) <= buf.Length
    {
      F.DirectInPlace(plan, ps, s, k, signed(chosen[k]));
      assert chosen[k] in ps;
      var j :| 0 <= j < |ps| && ps[j] == chosen[k];
      assert Specs(ps, s, signed)[j] == fs[k];
    }
    ghost var before := buf[..];
    F.ConvertRecord(fs, buf, base, buf, base);
    AllHold(ps, s, start, signed, before, buf[..], base);
  }

  ghost predicate AllConverted(before: seq<byte>, after: seq<byte>, fs: seq<F.FieldSpec>, base: nat) {
    forall k :: 0 <= k < |fs| ==> F.FieldHolds(before, after, fs[k], base, base, fs[k].count)
  }

  lemma OneConverted(before: seq<byte>, after: seq<byte>, fs: seq<F.FieldSpec>, base: nat, j: nat)
    requires AllConverted(before, after, fs, base) && j < |fs|
    ensures F.FieldHolds(before, after, fs[j], base, base, fs[j].count)
  {
    hide F.FieldHolds;
  }

  lemma AllHold(ps: seq<Pair>, s: Setting, start: Class, signed: Pair -> bool, before: seq<byte>, after: seq<byte>, base: nat)
    requires Settle(start, ps, 0, [], s).Some? && Settle(start, ps, 0, [], s).value.kind.Rank() <= 1
    requires forall k :: 0 <= k < |ps| ==> !ps[k].unknown
    requires F.Ordered(Specs(ps, s, signed), base, false) && |before| == |after|
    requires F.Room(Specs(ps, s, signed), base, base, |before|, |after|)
    requires var fs := Specs(Chosen(ps, s), s, signed);
      && AllConverted(before, after, fs, base)
      && forall i :: 0 <= i < |after| && F.OutsideFields(fs, base, |fs|, i) ==> after[i] == before[i]
    ensures forall k :: 0 <= k < |ps| ==>
      F.FieldHolds(before, after, F.SpecOf(ps[k], s, signed(ps[k])), base, base, ps[k].srcElements)
  {
    hide Settle, F.FieldHolds, F.Ordered, LeftOut, F.OutsideFields, AllConverted, Chosen;
    ChosenIs(ps, s);
    var chosen := Chosen(ps, s);
    var fs := Specs(chosen, s, signed);
    forall k | 0 <= k < |ps|
      ensures F.FieldHolds(before, after, F.SpecOf(ps[k], s, signed(ps[k])), base, base, ps[k].srcElements)
    {
      assert F.SrcEnd(Specs(ps, s, signed)[k], base) <= |before|;
      if LeftOut(ps[k], s) {
        Untargeted(ps, s, signed, base, k);
        LeftHolds(ps, s, start, k, signed(ps[k]), before, after, base);
      } else {
        assert ps[k] in chosen;
        var j :| 0 <= j < |chosen| && chosen[j] == ps[k];
        OneConverted(before, after, fs, base, j);
      }
    }
  }

  /** No planned field reaches into one that is left out. */
  lemma Untargeted(ps: seq<Pair>, s: Setting, signed: Pair -> bool, base: nat, k: nat)
    requires k < |ps| && LeftOut(ps[k], s) && F.Ordered(Specs(ps, s, signed), base, false)
    ensures var fs, f := Specs(Chosen(ps, s), s, signed), F.SpecOf(ps[k], s, signed(ps[k]));
      forall i :: F.DestAt(f, base, 0) <= i < F.DestEnd(f, base) ==> F.OutsideFields(fs, base, |fs|, i)
  {
    hide LeftOut;
    ChosenIs(ps, s);
    var c := Chosen(ps, s);
    var fs, f := Specs(c, s, signed), F.SpecOf(ps[k], s, signed(ps[k]));
    forall j | 0 <= j < |fs|
      ensures F.DestEnd(fs[j], base) <= F.DestAt(f, base, 0) || F.DestEnd(f, base) <= F.DestAt(fs[j], base, 0)
    {
      assert c[j] in ps && c[j] != ps[k];
      var l :| 0 <= l < |ps| && ps[l] == c[j];
      assert F.Before(Specs(ps, s, signed)[l], Specs(ps, s, signed)[k], base) || F.Before(Specs(ps, s, signed)[k], Specs(ps, s, signed)[l], base);
    }
  }

  lemma LeftHolds(ps: seq<Pair>, s: Setting, start: Class, k: nat, signed: bool, before: seq<byte>, after: seq<byte>, base: nat)
    requires k < |ps| && Settle(start, ps, 0, [], s).Some? && Settle(start, ps, 0, [], s).value.kind.Rank() <= 1
    requires LeftOut(ps[k], s) && !ps[k].unknown
    requires var f := F.SpecOf(ps[k], s, signed);
      && F.SrcEnd(f, base) <= |before| == |after| && F.DestEnd(f, base) <= |after|
      && forall i :: F.DestAt(f, base, 0) <= i < F.DestEnd(f, base) ==> after[i] == before[i]
    ensures F.FieldHolds(before, after, F.SpecOf(ps[k], s, signed), base, base, ps[k].srcElements)
  {
    hide Settle, F.Converted, LeftOut, F.SrcAt, F.DestAt;
    PlanExact(start, ps, 0, [], s);
    ChosenIs(ps, s);
    var p := ps[k];
    var f := F.SpecOf(p, s, signed);
    forall e: nat | e < f.count
      ensures F.Holds(before, after, f, base, base, e)
    {
      Inside(f, base, e);
      var at := F.SrcAt(f, base, e);
      SizeSame(p, s);
      LeftOutSame(start, ps, s, k, before[at..at + f.srcSize], signed);
      SamePlace(f, base, e);
      SliceKept(before, after, at, f.srcSize, F.DestAt(f, base, 0), F.DestEnd(f, base));
    }
  }

  lemma Inside(f: F.FieldSpec, base: nat, e: nat)
    requires e < f.count
    ensures F.SrcAt(f, base, e) + f.srcSize <= F.SrcEnd(f, base)
    ensures F.DestAt(f, base, 0) <= F.DestAt(f, base, e) && F.DestAt(f, base, e) + f.destSize <= F.DestEnd(f, base)
  {
    F.ElementPlaces(f, base, base, e);
  }

  lemma SliceKept(before: seq<byte>, after: seq<byte>, at: nat, n: nat, lo: nat, hi: nat)
    requires lo <= at && at + n <= hi <= |before| == |after|
    requires forall i :: lo <= i < hi ==> after[i] == before[i]
    ensures after[at..at + n] == before[at..at + n]
  {
  }

  lemma SizeSame(p: Pair, s: Setting)
    requires LeftOut(p, s) && !p.unknown
    ensures p.srcSize == p.destSize
  {
  }

  lemma SamePlace(f: F.FieldSpec, base: nat, e: nat)
    requires f.srcOffset == f.destOffset && f.srcSize == f.destSize
    ensures F.SrcAt(f, base, e) == F.DestAt(f, base, e)
  {
  }
}
