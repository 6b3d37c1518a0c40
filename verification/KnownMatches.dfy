/** Matching said plainly: fields counted by searching one list for each field of the other, and
    the choice among a format and an earlier version of it, number for number. */
module KnownMatches {
  import opened Evol

  // ----- counting by search

  /** Two types in which arrays of a number not fixed are compared by the name of their elements
      and, where both say them, their dimensions; others by base type and number. */
  predicate Alike(a: FieldType, b: FieldType) {
    && (a.count == -1 && b.count == -1 ==> a.base == b.base)
    && (a.count == -1 && b.count == -1 && a.dims.Some? && b.dims.Some? ==> a.dims.value == b.dims.value)
    && (a.count != -1 || b.count != -1 ==> a.data == b.data && a.count == b.count)
  }

  function Has(b: seq<Field>, f: Field): bool {
    exists j :: 0 <= j < |b| && b[j].name == f.name && Alike(f.typ, b[j].typ)
  }

  /** How many fields of a are missing from b. */
  function Missing(a: seq<Field>, b: seq<Field>): nat {
    if a == [] then 0 else (if Has(b, a[0]) then 0 else 1) + Missing(a[1..], b)
  }

  lemma AlikeIs(a: FieldType, b: FieldType)
    ensures IOFieldTypeEq(a, b) <==> Alike(a, b)
  {
  }

  lemma {:induction false} HasIs(b: seq<Field>, f: Field)
    ensures Matched(f, b) <==> Has(b, f)
  {
    if g :| g in b && g.name == f.name && IOFieldTypeEq(f.typ, g.typ) {
      AlikeIs(f.typ, g.typ);
      var j :| 0 <= j < |b| && b[j] == g;
    }
    if Has(b, f) {
      var j :| 0 <= j < |b| && b[j].name == f.name && Alike(f.typ, b[j].typ);
      AlikeIs(f.typ, b[j].typ);
    }
  }

  /** The merge counts what a search counts. */
  lemma {:induction false} MissingIs(a: seq<Field>, b: seq<Field>)
    requires UniqueNames(a)
    ensures |Unmatched(a, b)| == Missing(a, b)
  {
    hide Matched, Has;
    if a != [] {
      HasIs(b, a[0]);
      assert UniqueNames(a[1..]);
      MissingIs(a[1..], b);
      assert a[0] !in a[1..];
      assert Unmatched(a, b) == (if Matched(a[0], b) then {} else {a[0]}) + Unmatched(a[1..], b);
    } else {
      assert Unmatched(a, b) == {};
    }
  }

  /** Formats without subformats differ by the fields missing on either side. */
  lemma {:induction false} PlainDiffs(a: Format, b: Format)
    requires UniqueNames(a.fields) && UniqueNames(b.fields) && a.subs == []
    ensures Diff1(a, b) == Missing(a.fields, b.fields) && Diff2(a, b) == Missing(b.fields, a.fields)
  {
    MissingIs(a.fields, b.fields);
    MissingIs(b.fields, a.fields);
  }

  /** A subformat both have adds its own differences. */
  lemma {:induction false} NestedDiffs(a: Format, b: Format, x: Format, k: nat)
    requires UniqueNames(a.fields) && UniqueNames(b.fields) && a.subs == [Other(x)]
    requires k < |b.subs| && (forall j :: 0 <= j <= k ==> b.subs[j].Other?) && b.subs[k].format.name == x.name
    requires forall j :: 0 <= j < k ==> b.subs[j].format.name != x.name
    ensures Diff1(a, b) == Missing(a.fields, b.fields) + Diff1(x, b.subs[k].format)
    ensures Diff2(a, b) == Missing(b.fields, a.fields) + Diff2(x, b.subs[k].format)
  {
    hide UniqueNames, Missing, Unmatched, Find;
    MissingIs(a.fields, b.fields);
    MissingIs(b.fields, a.fields);
    FirstNamed(b, b.subs, x.name, k);
    OneSub(a.subs, x, b);
  }

  /** One the other does not have adds none. */
  lemma {:induction false} NestedAlone(a: Format, b: Format, x: Format)
    requires UniqueNames(a.fields) && UniqueNames(b.fields) && a.subs == [Other(x)]
    requires forall k :: 0 <= k < |b.subs| ==> b.subs[k].Other? && b.subs[k].format.name != x.name
    ensures Diff1(a, b) == Missing(a.fields, b.fields) && Diff2(a, b) == Missing(b.fields, a.fields)
  {
    hide UniqueNames, Missing, Unmatched, Find;
    MissingIs(a.fields, b.fields);
    MissingIs(b.fields, a.fields);
    OneSub(a.subs, x, b);
    assert forall k :: 0 <= k < |b.subs| ==> NameIn(b, b.subs[k]) != x.name;
  }

  lemma {:induction false} OneSub(s: seq<Sub>, x: Format, b: Format)
    requires s == [Other(x)]
    ensures SubDiff1(s, b, b.subs) == OneDiff1(Other(x), b, b.subs) && SubDiff2(s, b, b.subs) == OneDiff2(Other(x), b, b.subs)
  {
    hide OneDiff1, OneDiff2;
    assert s[1..] == [];
  }

  lemma {:induction false} FirstNamed(b: Format, fs: seq<Sub>, name: string, k: nat)
    requires k < |fs| && (forall j :: 0 <= j <= k ==> fs[j].Other?) && fs[k].format.name == name
    requires forall j :: 0 <= j < k ==> fs[j].format.name != name
    ensures Find(b, fs, name) == Some(fs[k].format)
    decreases k
  {
    if k > 0 { FirstNamed(b, fs[1..], name, k - 1); }
  }

  // ----- choosing

  predicate Better(d1: nat, d2: nat, e1: nat, e2: nat) {
    d2 < e2 || (d2 == e2 && d1 < e1)
  }

  /** A format without subformats whose fields have different names. */
  ghost predicate IsPlain(f: Format) {
    f.subs == [] && UniqueNames(f.fields)
  }

  lemma {:induction false} PlainNamed(f: Format)
    requires IsPlain(f)
    ensures WellNamed(f) && Countable(f) && CountTotal(f) == |f.fields|
  {
    PlainCount(f, 0);
  }

  lemma {:induction false} PlainCount(f: Format, i: nat)
    requires f.subs == [] && i <= |f.fields|
    ensures CountFields(f, i) == 0
    decreases |f.fields| - i
  {
    if i < |f.fields| { PlainCount(f, i + 1); }
  }

  /** A field held by value counts, and so do the fields of its format. */
  lemma {:induction false} HeldCount(f: Format, x: Format, i: nat)
    requires f.subs == [Other(x)] && x.name != f.name && i < |f.fields| && f.fields[i].typ.base == x.name
    ensures CountFields(f, i) == CountTotal(x) + CountFields(f, i + 1)
  {
  }

  lemma {:induction false} OtherCount(f: Format, x: Format, i: nat)
    requires f.subs == [Other(x)] && i < |f.fields| && f.fields[i].typ.base != x.name
    ensures CountFields(f, i) == CountFields(f, i + 1)
  {
    assert f.subs[1..] == [];
  }

  function Holding(fs: seq<Field>, name: string): nat {
    if fs == [] then 0 else (if fs[0].typ.base == name then 1 else 0) + Holding(fs[1..], name)
  }

  lemma {:induction false} HeldFrom(f: Format, x: Format, i: nat)
    requires f.subs == [Other(x)] && x.name != f.name && i <= |f.fields|
    ensures CountFields(f, i) == CountTotal(x) * Holding(f.fields[i..], x.name)
    decreases |f.fields| - i
  {
    hide CountTotal;
    if i < |f.fields| {
      HeldFrom(f, x, i + 1);
      assert f.fields[i..][1..] == f.fields[i + 1..];
      hide CountFields;
      if f.fields[i].typ.base == x.name {
        HeldCount(f, x, i);
        OneMore(CountTotal(x), Holding(f.fields[i + 1..], x.name));
      } else {
        OtherCount(f, x, i);
      }
    }
  }

  lemma OneMore(c: nat, n: nat)
    ensures c * (1 + n) == c + c * n
  {
  }

  /** A format's fields, and those of the format it holds as often as it holds it. */
  lemma {:induction false} TotalCount(f: Format, x: Format)
    requires f.subs == [Other(x)] && x.name != f.name
    ensures CountTotal(f) == |f.fields| + CountTotal(x) * Holding(f.fields, x.name)
  {
    HeldFrom(f, x, 0);
    assert f.fields[0..] == f.fields;
  }

  /** One candidate and no earlier versions: it is taken exactly when it has the name and no
      field is missing on either side. */
  method ChooseOne(f: Format, b: Format) returns (taken: bool)
    requires IsPlain(f) && IsPlain(b)
    ensures taken <==> f.name == b.name && Missing(f.fields, b.fields) == 0 && Missing(b.fields, f.fields) == 0
  {
    hide WellNamed, Countable, Closest, Acceptable, Missing, Diff1, Diff2;
    PlainNamed(f);
    PlainNamed(b);
    PlainDiffs(f, b);
    var nearest, older := FMformatCompatCmp(f, [Some(b)], None);
    taken := nearest >= 0;
    OneIsClosest(f, b);
    if taken {
      TakenAlone(f, b, if older.None? then 0 else older.value + 1, nearest);
    }
  }

  lemma {:induction false} OneIsClosest(f: Format, b: Format)
    ensures f.name == b.name && Diff1(f, b) == 0 && Diff2(f, b) == 0 ==>
      Closest(Sources(f, None), [Some(b)], 0, 0) && Acceptable(f, None, [Some(b)], 0, 0)
  {
  }

  lemma {:induction false} TakenAlone(f: Format, b: Format, q: nat, i: nat)
    requires Closest(Sources(f, None), [Some(b)], q, i) && Acceptable(f, None, [Some(b)], q, i)
    ensures f.name == b.name && Diff1(f, b) == 0 && Diff2(f, b) == 0
  {
  }

  /** One candidate and one earlier version, all of one name. An exact match is taken. Otherwise
      the version from which fewer fields of the candidate are missing, or as many and fewer
      the other way, if it is better than 65535 on both sides; and it is taken only if less than a
      fifth of the candidate's fields are missing. */
  method ChooseVersion(f: Format, prior: Format, b: Format) returns (taken: bool, older: bool)
    requires IsPlain(f) && IsPlain(prior) && IsPlain(b) && f.name == prior.name == b.name
    ensures var d1, d2 := Missing(f.fields, b.fields), Missing(b.fields, f.fields);
      var e1, e2 := Missing(prior.fields, b.fields), Missing(b.fields, prior.fields);
      var first := Better(d1, d2, 65535, 65535) && !Better(e1, e2, d1, d2);
      var second := Better(e1, e2, 65535, 65535) && Better(e1, e2, d1, d2);
      && (older ==> taken)
      && (taken && !older <==> first && ((d1 == 0 && d2 == 0) || 5 * d2 < |b.fields|))
      && (older <==> second && 5 * e2 < |b.fields|)
  {
    hide WellNamed, Countable, Closest, Acceptable, Missing, Diff1, Diff2;
    PlainNamed(f);
    PlainNamed(b);
    PlainNamed(prior);
    PlainDiffs(f, b);
    PlainDiffs(prior, b);
    var nearest, version := FMformatCompatCmp(f, [Some(b)], Some([prior]));
    taken, older := nearest >= 0, version.Some?;
    ClosestOfTwo(f, prior, b);
    ghost var q: nat := if version.None? then 0 else version.value + 1;
    if taken {
      OnlyTwo(f, prior, b, q, nearest);
    }
  }

  lemma {:induction false} ClosestOfTwo(f: Format, p: Format, b: Format)
    requires f.name == p.name == b.name
    ensures var s := Sources(f, Some([p])); var d1, d2 := Diff1(f, b), Diff2(f, b); var e1, e2 := Diff1(p, b), Diff2(p, b);
      && (Closest(s, [Some(b)], 0, 0) <==> Better(d1, d2, 65535, 65535) && !Better(e1, e2, d1, d2))
      && (Closest(s, [Some(b)], 1, 0) <==> Better(e1, e2, 65535, 65535) && Better(e1, e2, d1, d2))
      && (Acceptable(f, Some([p]), [Some(b)], 0, 0) <==> (d1 == 0 && d2 == 0) || 5 * d2 < CountTotal(b))
      && (Acceptable(f, Some([p]), [Some(b)], 1, 0) <==> 5 * e2 < CountTotal(b))
  {
    hide Diff1, Diff2, CountTotal;
    var s, list := Sources(f, Some([p])), [Some(b)];
    var d1, d2 := Diff1(f, b), Diff2(f, b);
    var e1, e2 := Diff1(p, b), Diff2(p, b);
    assert s == [f, p] && Named(s[0], list, 0) && Named(s[1], list, 0);
    if Closest(s, list, 0, 0) {
      assert AtLeast(s[1], list, 0, d1, d2, FirstOf(1, 0, 0, |list|));
    }
    if Closest(s, list, 1, 0) {
      assert AtLeast(s[0], list, 0, e1, e2, FirstOf(0, 1, 0, |list|));
    }
    if Better(d1, d2, 65535, 65535) && !Better(e1, e2, d1, d2) {
      forall q, k | 0 <= q < |s| && 0 <= k < |list|
        ensures AtLeast(s[q], list, k, d1, d2, FirstOf(q, 0, 0, |list|))
      {
      }
    }
    if Better(e1, e2, 65535, 65535) && Better(e1, e2, d1, d2) {
      forall q, k | 0 <= q < |s| && 0 <= k < |list|
        ensures AtLeast(s[q], list, k, e1, e2, FirstOf(q, 1, 0, |list|))
      {
      }
    }
  }

  lemma {:induction false} OnlyTwo(f: Format, p: Format, b: Format, q: nat, i: nat)
    requires Closest(Sources(f, Some([p])), [Some(b)], q, i)
    ensures i == 0 && q <= 1
  {
  }
}
