/** Matching a format to the closest of a list: fields merged in name order, the formats they
    contain compared in turn, and the candidate with the fewest differences chosen. */
module Evol {
  datatype Option<T> = None | Some(value: T)

  /** What a type string says: the base type and the number of elements, -1 when that is not
      fixed; the name of the base type, without what follows a colon; and the dimensions. */
  datatype FieldType = FieldType(data: nat, count: int, base: string, dims: Option<string>)

  datatype Field = Field(name: string, typ: FieldType)

  datatype Format = Format(name: string, fields: seq<Field>, subs: seq<Sub>)

  /** An entry of a format's list of subformats: a recursive format can be listed in its own. */
  datatype Sub = Self | Other(format: Format)

  // ---- names ----

  /** The order of strcmp. */
  function Compare(a: string, b: string): (r: int)
    ensures r == 0 <==> a == b
  {
    if a == [] then (if b == [] then 0 else -1)
    else if b == [] then 1
    else if a[0] != b[0] then (if a[0] < b[0] then -1 else 1)
    else
      assert a == [a[0]] + a[1..] && b == [b[0]] + b[1..];
      Compare(a[1..], b[1..])
  }

  predicate Before(a: Field, b: Field) {
    Compare(a.name, b.name) < 0
  }

  lemma {:induction false} Opposite(a: string, b: string)
    ensures Compare(a, b) < 0 <==> Compare(b, a) > 0
  {
    if a != [] && b != [] && a[0] == b[0] {
      Opposite(a[1..], b[1..]);
    }
  }

  lemma {:induction false} Transitive(a: string, b: string, c: string)
    requires Compare(a, b) < 0 && Compare(b, c) < 0
    ensures Compare(a, c) < 0
  {
    if a != [] && b != [] && c != [] && a[0] == b[0] == c[0] {
      Transitive(a[1..], b[1..], c[1..]);
    }
  }

  ghost predicate UniqueNames(fs: seq<Field>) {
    forall i, j :: 0 <= i < j < |fs| ==> fs[i].name != fs[j].name
  }

  ghost predicate Sorted(fs: seq<Field>) {
    forall i, j :: 0 <= i < j < |fs| ==> Before(fs[i], fs[j])
  }

  /** Same elements, each as often. */
  function Insert(f: Field, fs: seq<Field>): (r: seq<Field>)
    ensures multiset(r) == multiset(fs) + multiset{f}
  {
    if fs == [] || Before(f, fs[0]) then
      assert [f] + fs == [f] + fs;
      [f] + fs
    else
      assert fs == [fs[0]] + fs[1..];
      [fs[0]] + Insert(f, fs[1..])
  }

  lemma {:induction false} InsertSorted(f: Field, fs: seq<Field>)
    requires Sorted(fs) && forall g :: g in fs ==> g.name != f.name
    ensures Sorted(Insert(f, fs))
  {
    if fs != [] && !Before(f, fs[0]) {
      Opposite(f.name, fs[0].name);
      InsertSorted(f, fs[1..]);
      var r := Insert(f, fs[1..]);
      forall k | 0 <= k < |r|
        ensures Before(fs[0], r[k])
      {
        assert r[k] in multiset(r);
        assert r[k] == f || r[k] in fs[1..];
      }
    } else if fs != [] {
      forall k | 0 <= k < |fs|
        ensures Before(f, fs[k])
      {
        if k > 0 { Transitive(f.name, fs[0].name, fs[k].name); }
      }
    }
  }

  /** The fields in name order, as qsort leaves them. */
  function SortByName(fs: seq<Field>): (r: seq<Field>)
    ensures multiset(r) == multiset(fs)
  {
    if fs == [] then []
    else
      assert fs == [fs[0]] + fs[1..];
      Insert(fs[0], SortByName(fs[1..]))
  }

  lemma {:induction false} SortedByName(fs: seq<Field>)
    requires UniqueNames(fs)
    ensures Sorted(SortByName(fs)) && |SortByName(fs)| == |fs|
    ensures forall f :: f in SortByName(fs) <==> f in fs
  {
    if fs != [] {
      var rest := SortByName(fs[1..]);
      SortedByName(fs[1..]);
      forall g | g in rest
        ensures g.name != fs[0].name
      {
        assert g in fs[1..];
      }
      InsertSorted(fs[0], rest);
    }
    assert |multiset(SortByName(fs))| == |SortByName(fs)| && |multiset(fs)| == |fs|;
    assert forall f :: f in SortByName(fs) <==> f in multiset(SortByName(fs));
    assert forall f :: f in fs <==> f in multiset(fs);
  }

  // ---- fields ----

  /** Two types with no fixed number of elements agree by base name and dimensions; others by
      base type and number. */
  predicate IOFieldTypeEq(a: FieldType, b: FieldType) {
    if a.count == -1 && b.count == -1 then
      a.base == b.base && (a.dims.None? || b.dims.None? || a.dims == b.dims)
    else
      a.data == b.data && a.count == b.count
  }

  /** b has a field of this name and type. */
  ghost predicate Matched(f: Field, b: seq<Field>) {
    exists g :: g in b && g.name == f.name && IOFieldTypeEq(f.typ, g.typ)
  }

  /** The fields of a that b does not have. */
  ghost function Unmatched(a: seq<Field>, b: seq<Field>): set<Field> {
    set f | f in a && !Matched(f, b)
  }

  /** Every field before i in one list comes before every field from j in the other. */
  ghost predicate Apart(s: seq<Field>, i: nat, t: seq<Field>, j: nat) {
    i <= |s| && j <= |t| && forall x, y :: 0 <= x < i && j <= y < |t| ==> Before(s[x], t[y])
  }

  lemma OneMore(s: seq<Field>, i: nat, t: seq<Field>)
    requires Sorted(s) && i < |s|
    ensures |Unmatched(s[..i + 1], t)| == |Unmatched(s[..i], t)| + if Matched(s[i], t) then 0 else 1
  {
    assert s[..i + 1] == s[..i] + [s[i]];
    assert s[i] !in s[..i];
    assert Unmatched(s[..i + 1], t) == Unmatched(s[..i], t) + if Matched(s[i], t) then {} else {s[i]};
  }

  lemma {:induction false} Rest(s: seq<Field>, i: nat, t: seq<Field>)
    requires Sorted(s) && i <= |s| && forall k :: i <= k < |s| ==> !Matched(s[k], t)
    ensures |Unmatched(s, t)| == |Unmatched(s[..i], t)| + |s| - i
    decreases |s| - i
  {
    if i == |s| {
      assert s[..i] == s;
    } else {
      OneMore(s, i, t);
      Rest(s, i + 1, t);
    }
  }

  /** With everything before j smaller and t[j] not smaller, s[i] is matched only by t[j]. */
  lemma MatchOnlyAt(s: seq<Field>, i: nat, t: seq<Field>, j: nat)
    requires Sorted(t) && i < |s| && Apart(t, j, s, i) && (j < |t| ==> Compare(s[i].name, t[j].name) <= 0)
    ensures Matched(s[i], t) <==> j < |t| && s[i].name == t[j].name && IOFieldTypeEq(s[i].typ, t[j].typ)
  {
    if Matched(s[i], t) {
      var g :| g in t && g.name == s[i].name && IOFieldTypeEq(s[i].typ, g.typ);
      var k :| 0 <= k < |t| && t[k] == g;
      if k > j {
        assert Before(t[j], t[k]);
        Opposite(t[j].name, t[k].name);
      }
    }
  }

  lemma TypeEqSymmetric(a: FieldType, b: FieldType)
    ensures IOFieldTypeEq(a, b) == IOFieldTypeEq(b, a)
  {
  }

  lemma StepLeft(s: seq<Field>, i: nat, t: seq<Field>, j: nat)
    requires Sorted(s) && Sorted(t) && i < |s| && j < |t| && Apart(s, i, t, j) && Compare(s[i].name, t[j].name) < 0
    ensures Apart(s, i + 1, t, j)
  {
    forall y | j < y < |t|
      ensures Before(s[i], t[y])
    {
      Transitive(s[i].name, t[j].name, t[y].name);
    }
  }

  /** The merge of two lists in name order counts on either side the fields the other does not
      have. */
  method MergeScan(s: seq<Field>, t: seq<Field>, d1: nat, d2: nat) returns (diff1: nat, diff2: nat)
    requires Sorted(s) && Sorted(t)
    ensures diff1 == d1 + |Unmatched(s, t)| && diff2 == d2 + |Unmatched(t, s)|
  {
    diff1, diff2 := d1, d2;
    var i, j := 0, 0;
    while i < |s| && j < |t|
      invariant i <= |s| && j <= |t| && Apart(s, i, t, j) && Apart(t, j, s, i)
      invariant diff1 == d1 + |Unmatched(s[..i], t)| && diff2 == d2 + |Unmatched(t[..j], s)|
      decreases |s| - i + |t| - j
    {
      var order := Compare(s[i].name, t[j].name);
      Opposite(s[i].name, t[j].name);
      Opposite(t[j].name, s[i].name);
      if order <= 0 {
        MatchOnlyAt(s, i, t, j);
        OneMore(s, i, t);
      }
      if order >= 0 {
        MatchOnlyAt(t, j, s, i);
        OneMore(t, j, s);
      }
      if order == 0 {
        TypeEqSymmetric(s[i].typ, t[j].typ);
        if !IOFieldTypeEq(s[i].typ, t[j].typ) {
          diff1, diff2 := diff1 + 1, diff2 + 1;
        }
        SameNameStep(s, i, t, j);
        SameNameStep(t, j, s, i);
        i, j := i + 1, j + 1;
      } else if order < 0 {
        StepLeft(s, i, t, j);
        diff1 := diff1 + 1;
        i := i + 1;
      } else {
        StepLeft(t, j, s, i);
        diff2 := diff2 + 1;
        j := j + 1;
      }
    }
    forall k | i <= k < |s|
      ensures !Matched(s[k], t)
    {
      Later(t, j, s, i, k);
      MatchOnlyAt(s, k, t, j);
    }
    forall k | j <= k < |t|
      ensures !Matched(t[k], s)
    {
      Later(s, i, t, j, k);
      MatchOnlyAt(t, k, s, i);
    }
    Rest(s, i, t);
    Rest(t, j, s);
    diff1 := diff1 + |s| - i;
    diff2 := diff2 + |t| - j;
  }

  lemma Later(t: seq<Field>, j: nat, s: seq<Field>, i: nat, k: nat)
    requires Apart(t, j, s, i) && i <= k < |s|
    ensures Apart(t, j, s, k)
  {
  }

  lemma SameNameStep(s: seq<Field>, i: nat, t: seq<Field>, j: nat)
    requires Sorted(s) && Sorted(t) && i < |s| && j < |t| && Apart(s, i, t, j) && s[i].name == t[j].name
    ensures Apart(s, i + 1, t, j + 1)
  {
    forall y | j < y < |t|
      ensures Before(s[i], t[y])
    {
      assert Before(t[j], t[y]);
    }
  }

  /** The names a has and b does not, and those both have with different types. */
  ghost function OnlyIn(a: seq<Field>, b: seq<Field>): set<string> {
    set f | f in a && (forall g :: g in b ==> g.name != f.name) :: f.name
  }

  ghost function Clashing(a: seq<Field>, b: seq<Field>): set<string> {
    set f, g | f in a && g in b && f.name == g.name && !IOFieldTypeEq(f.typ, g.typ) :: f.name
  }

  lemma ClashSymmetric(a: seq<Field>, b: seq<Field>)
    ensures Clashing(a, b) == Clashing(b, a)
  {
    forall f, g | f in a && g in b && f.name == g.name
      ensures IOFieldTypeEq(f.typ, g.typ) == IOFieldTypeEq(g.typ, f.typ)
    {
      TypeEqSymmetric(f.typ, g.typ);
    }
  }

  ghost function Names(s: set<Field>): set<string> {
    set f | f in s :: f.name
  }

  lemma {:induction false} AsManyNames(s: set<Field>)
    requires forall f, g :: f in s && g in s && f.name == g.name ==> f == g
    ensures |Names(s)| == |s|
    decreases |s|
  {
    if s == {} {
      assert Names(s) == {};
    } else {
      var f :| f in s;
      AsManyNames(s - {f});
      assert Names(s) == Names(s - {f}) + {f.name};
    }
  }

  lemma SameFields(fs: seq<Field>)
    requires UniqueNames(fs)
    ensures forall f, g :: f in fs && g in fs && f.name == g.name ==> f == g
  {
  }

  /** What the merge counts for a: the names only a has and the clashes of type, which count
      on both sides. */
  lemma UnmatchedCount(a: seq<Field>, b: seq<Field>)
    requires UniqueNames(a) && UniqueNames(b)
    ensures |Unmatched(a, b)| == |OnlyIn(a, b)| + |Clashing(a, b)|
  {
    SameFields(a);
    SameFields(b);
    AsManyNames(Unmatched(a, b));
    forall n
      ensures n in Names(Unmatched(a, b)) <==> n in OnlyIn(a, b) + Clashing(a, b)
    {
      if f :| f in a && f.name == n {
        if g :| g in b && g.name == n {
          assert Matched(f, b) <==> IOFieldTypeEq(f.typ, g.typ);
          assert n in Clashing(a, b) <==> !IOFieldTypeEq(f.typ, g.typ);
          assert n in Names(Unmatched(a, b)) <==> f in Unmatched(a, b);
        }
      }
    }
    assert Names(Unmatched(a, b)) == OnlyIn(a, b) + Clashing(a, b);
    assert OnlyIn(a, b) * Clashing(a, b) == {};
  }

  // ---- formats ----

  /** The name an entry of b's list goes by. */
  function NameIn(b: Format, x: Sub): string {
    match x case Self => b.name case Other(f) => f.name
  }

  /** The first of the formats listed in b's list with this name. */
  function Find(b: Format, fs: seq<Sub>, name: string): (r: Option<Format>)
    ensures r.None? <==> forall k :: 0 <= k < |fs| ==> NameIn(b, fs[k]) != name
    ensures r.Some? ==> r.value.name == name && (Other(r.value) in fs || (Self in fs && r.value == b))
  {
    if fs == [] then None
    else if NameIn(b, fs[0]) == name then Some(match fs[0] case Self => b case Other(f) => f)
    else Find(b, fs[1..], name)
  }

  ghost predicate UniqueFormats(fs: seq<Sub>) {
    forall i, j :: 0 <= i < j < |fs| && fs[i].Other? && fs[j].Other? ==> fs[i].format.name != fs[j].format.name
  }

  /** No name is used twice, for fields of a format or for the format and those listed in it. */
  ghost predicate WellNamed(f: Format) {
    && UniqueNames(f.fields) && UniqueFormats(f.subs)
    && forall k :: 0 <= k < |f.subs| && f.subs[k].Other? ==> f.subs[k].format.name != f.name && WellNamed(f.subs[k].format)
  }

  /** Part of b's list. */
  ghost predicate AllNamed(b: Format, fs: seq<Sub>) {
    UniqueFormats(fs) && forall k :: 0 <= k < |fs| && fs[k].Other? ==> fs[k].format.name != b.name && WellNamed(fs[k].format)
  }

  /** Differences counted for the first format, and for the second. */
  ghost function Diff1(a: Format, b: Format): nat
    decreases a
  {
    |Unmatched(a.fields, b.fields)| + SubDiff1(a.subs, b, b.subs)
  }

  ghost function SubDiff1(s: seq<Sub>, b: Format, t: seq<Sub>): nat
    decreases s
  {
    if s == [] then 0
    else OneDiff1(s[0], b, t) + SubDiff1(s[1..], b, t)
  }

  ghost function OneDiff1(x: Sub, b: Format, t: seq<Sub>): nat
    decreases x
  {
    match x
    case Self => 0
    case Other(f) => (match Find(b, t, f.name) case None => 0 case Some(m) => Diff1(f, m))
  }

  ghost function Diff2(a: Format, b: Format): nat
    decreases a
  {
    |Unmatched(b.fields, a.fields)| + SubDiff2(a.subs, b, b.subs)
  }

  ghost function SubDiff2(s: seq<Sub>, b: Format, t: seq<Sub>): nat
    decreases s
  {
    if s == [] then 0
    else OneDiff2(s[0], b, t) + SubDiff2(s[1..], b, t)
  }

  ghost function OneDiff2(x: Sub, b: Format, t: seq<Sub>): nat
    decreases x
  {
    match x
    case Self => 0
    case Other(f) => (match Find(b, t, f.name) case None => 0 case Some(m) => Diff2(f, m))
  }

  /** Another format in a's list adds its differences from the one of its name in b's; a
      itself, of b's name, adds none. */
  lemma {:induction false} AddOne(b: Format, s: seq<Sub>, a: Format, x: Sub, t: seq<Sub>)
    requires UniqueFormats(s) && (x.Other? ==> (Self in s ==> x.format.name != b.name) && Find(a, t, x.format.name).None?)
    requires x.Self? ==> forall k :: 0 <= k < |s| && s[k].Other? ==> s[k].format.name != a.name
    ensures SubDiff1(s, a, [x] + t) == SubDiff1(s, a, t) +
      match x case Self => 0 case Other(f) => (match Find(b, s, f.name) case None => 0 case Some(m) => Diff1(m, f))
    decreases |s|
  {
    if s != [] {
      AddOne(b, s[1..], a, x, t);
      assert ([x] + t)[1..] == t;
    }
  }

  /** A format listed in itself does not bear the name of one in the other's list. */
  predicate Clear(a: Format, s: seq<Sub>, t: seq<Sub>) {
    Self in s ==> forall k :: 0 <= k < |t| && t[k].Other? ==> t[k].format.name != a.name
  }

  /** Formats of one name are clear of each other. */
  lemma ClearOfNamesake(a: Format, b: Format)
    requires WellNamed(b) && a.name == b.name
    ensures Clear(a, a.subs, b.subs)
  {
  }

  /** Swapping the formats swaps the counts. */
  lemma {:induction false} SwapCounts(a: Format, b: Format)
    requires WellNamed(a) && WellNamed(b) && Clear(a, a.subs, b.subs) && Clear(b, b.subs, a.subs)
    ensures Diff2(a, b) == Diff1(b, a)
    decreases a
  {
    SwapSubs(a, a.subs, b, b.subs);
  }

  lemma {:induction false} SwapSubs(a: Format, s: seq<Sub>, b: Format, t: seq<Sub>)
    requires AllNamed(a, s) && AllNamed(b, t) && Clear(a, s, t) && Clear(b, t, s)
    ensures SubDiff2(s, b, t) == SubDiff1(t, a, s)
    decreases s
  {
    if s == [] {
      NoneFound(t, a);
    } else {
      SwapSubs(a, s[1..], b, t);
      AddOne(b, t, a, s[0], s[1..]);
      assert s == [s[0]] + s[1..];
      SwapOne(s[0], b, t);
    }
  }

  lemma {:induction false} SwapOne(x: Sub, b: Format, t: seq<Sub>)
    requires AllNamed(b, t) && (x.Other? ==> WellNamed(x.format) && (Self in t ==> x.format.name != b.name))
    ensures OneDiff2(x, b, t) == match x case Self => 0 case Other(f) => (match Find(b, t, f.name) case None => 0 case Some(m) => Diff1(m, f))
    decreases x
  {
    if x.Other? {
      match Find(b, t, x.format.name) {
        case Some(m) =>
          var k :| 0 <= k < |t| && t[k] == Other(m);
          ClearOfNamesake(x.format, m);
          ClearOfNamesake(m, x.format);
          SwapCounts(x.format, m);
        case None =>
      }
    }
  }

  lemma {:induction false} NoneFound(t: seq<Sub>, a: Format)
    ensures SubDiff1(t, a, []) == 0
    decreases |t|
  {
    if t != [] {
      NoneFound(t[1..], a);
    }
  }

  /** A format does not differ from itself, so that leaving early for the same format does not
      change the counts. */
  lemma {:induction false} NoSelfDifference(a: Format)
    requires WellNamed(a)
    ensures Diff1(a, a) == 0 && Diff2(a, a) == 0
    decreases a
  {
    assert forall f :: f in a.fields ==> Matched(f, a.fields) by {
      forall f | f in a.fields
        ensures Matched(f, a.fields)
      {
        assert IOFieldTypeEq(f.typ, f.typ);
      }
    }
    assert Unmatched(a.fields, a.fields) == {};
    SelfSubs(a, 0);
    SwapCounts(a, a);
  }

  lemma {:induction false} SelfSubs(a: Format, k: nat)
    requires WellNamed(a) && k <= |a.subs|
    ensures SubDiff1(a.subs[k..], a, a.subs) == 0
    decreases a, 0, |a.subs| - k
  {
    if k < |a.subs| {
      SelfSubs(a, k + 1);
      if a.subs[k].Other? {
        FoundAt(a, a.subs, k);
        NoSelfDifference(a.subs[k].format);
      }
      assert a.subs[k..][1..] == a.subs[k + 1..];
    }
  }

  lemma {:induction false} FoundAt(b: Format, fs: seq<Sub>, k: nat)
    requires AllNamed(b, fs) && k < |fs| && (fs[k].Self? ==> forall i :: 0 <= i < k ==> fs[i].Other?)
    ensures Find(b, fs, NameIn(b, fs[k])) == Some(match fs[k] case Self => b case Other(f) => f)
  {
    if k > 0 {
      FoundAt(b, fs[1..], k - 1);
    }
  }

  datatype Order = Equal | Less | Greater | Incompatible

  function OrderOf(diff1: nat, diff2: nat): Order {
    if diff1 == 0 then (if diff2 == 0 then Equal else Less)
    else if diff2 == 0 then Greater else Incompatible
  }

  lemma SubStep(s: seq<Sub>, k: nat, b: Format)
    requires k < |s|
    ensures SubDiff1(s[k..], b, b.subs) == OneDiff1(s[k], b, b.subs) + SubDiff1(s[k + 1..], b, b.subs)
    ensures SubDiff2(s[k..], b, b.subs) == OneDiff2(s[k], b, b.subs) + SubDiff2(s[k + 1..], b, b.subs)
  {
    hide OneDiff1, OneDiff2;
    assert s[k..][1..] == s[k + 1..];
  }

  lemma SubsDone(s: seq<Sub>, b: Format)
    ensures SubDiff1(s[|s|..], b, b.subs) == 0 && SubDiff2(s[|s|..], b, b.subs) == 0
  {
  }

  lemma Parts(f: Format)
    requires WellNamed(f)
    ensures UniqueNames(f.fields) && AllNamed(f, f.subs)
    ensures forall k :: 0 <= k < |f.subs| && f.subs[k].Other? ==> WellNamed(f.subs[k].format)
  {
  }

  /** Look for a name in b's list. */
  method Search(b: Format, name: string) returns (r: Option<Format>)
    requires WellNamed(b)
    ensures r == Find(b, b.subs, name) && (r.Some? ==> WellNamed(r.value))
  {
    var i := 0;
    while i < |b.subs| && NameIn(b, b.subs[i]) != name
      invariant 0 <= i <= |b.subs|
      invariant forall j :: 0 <= j < i ==> NameIn(b, b.subs[j]) != name
    {
      i := i + 1;
    }
    if i == |b.subs| { return None; }
    FoundAt(b, b.subs, i);
    r := Some(match b.subs[i] case Self => b case Other(f) => f);
  }

  /** The differences of two formats, added to those counted before. An entry that
      is the first format itself is skipped. */
  method FMformatCmpDiff(a: Format, b: Format, d1: nat, d2: nat) returns (order: Order, diff1: nat, diff2: nat)
    requires WellNamed(a) && WellNamed(b)
    ensures diff1 == d1 + Diff1(a, b) && diff2 == d2 + Diff2(a, b)
    ensures order == if a == b then Equal else OrderOf(diff1, diff2)
    decreases a
  {
    diff1, diff2 := d1, d2;
    if a == b {
      NoSelfDifference(a);
      return Equal, diff1, diff2;
    }
    hide Unmatched, UniqueNames, UniqueFormats, Sorted, WellNamed, SubDiff1, SubDiff2, Find, SortByName, OrderOf;
    Parts(a);
    Parts(b);
    SortedByName(a.fields);
    SortedByName(b.fields);
    diff1, diff2 := MergeScan(SortByName(a.fields), SortByName(b.fields), d1, d2);
    SameUnmatched(a.fields, b.fields);
    SameUnmatched(b.fields, a.fields);
    assert a.subs[0..] == a.subs;
    var k := 0;
    while k < |a.subs|
      invariant 0 <= k <= |a.subs|
      invariant diff1 + SubDiff1(a.subs[k..], b, b.subs) == d1 + Diff1(a, b)
      invariant diff2 + SubDiff2(a.subs[k..], b, b.subs) == d2 + Diff2(a, b)
    {
      SubStep(a.subs, k, b);
      if a.subs[k].Self? {
        k := k + 1;
        continue;
      }
      var sub := a.subs[k].format;
      var other := Search(b, sub.name);
      if other.Some? {
        var _, e1, e2 := FMformatCmpDiff(sub, other.value, diff1, diff2);
        diff1, diff2 := e1, e2;
      }
      k := k + 1;
    }
    SubsDone(a.subs, b);
    order := OrderOf(diff1, diff2);
  }

  lemma SameUnmatched(a: seq<Field>, b: seq<Field>)
    requires UniqueNames(a) && UniqueNames(b)
    ensures Unmatched(SortByName(a), SortByName(b)) == Unmatched(a, b)
  {
    SortedByName(a);
    SortedByName(b);
    forall f
      ensures Matched(f, SortByName(b)) <==> Matched(f, b)
    {
      if Matched(f, b) {
        var g :| g in b && g.name == f.name && IOFieldTypeEq(f.typ, g.typ);
        assert g in SortByName(b);
      }
      if Matched(f, SortByName(b)) {
        var g :| g in SortByName(b) && g.name == f.name && IOFieldTypeEq(f.typ, g.typ);
        assert g in b;
      }
    }
  }

  // ---- the closest of a list ----

  const MAX_DIFF: nat := 0xFFFF

  /** Fewer in the second count, or as many there and fewer in the first. */
  predicate Closer(d1: nat, d2: nat, e1: nat, e2: nat) {
    d2 < e2 || (d2 == e2 && d1 < e1)
  }

  ghost predicate Named(f: Format, list: seq<Option<Format>>, i: nat) {
    i < |list| && list[i].Some? && list[i].value.name == f.name
  }

  /** Candidate i has the format's name and differs by this. */
  ghost predicate IsCandidate(f: Format, list: seq<Option<Format>>, i: nat, d1: nat, d2: nat) {
    Named(f, list, i) && d1 == Diff1(f, list[i].value) && d2 == Diff2(f, list[i].value)
  }

  ghost predicate AllWellNamed(list: seq<Option<Format>>) {
    forall i :: 0 <= i < |list| && list[i].Some? ==> WellNamed(list[i].value)
  }

  /** Candidate k of the format differs by (d1, d2) at least; by more if it is before first. */
  ghost predicate AtLeast(f: Format, list: seq<Option<Format>>, k: nat, d1: nat, d2: nat, first: int) {
    Named(f, list, k) ==>
      (var e1, e2 := Diff1(f, list[k].value), Diff2(f, list[k].value);
       if k < first then Closer(d1, d2, e1, e2) else !Closer(e1, e2, d1, d2))
  }

  lemma Tighter(f: Format, list: seq<Option<Format>>, k: nat, d1: nat, d2: nat, first: int, e1: nat, e2: nat, first2: int)
    requires AtLeast(f, list, k, d1, d2, first)
    requires Closer(e1, e2, d1, d2) || (e1 == d1 && e2 == d2 && (k < first2 ==> k < first))
    ensures AtLeast(f, list, k, e1, e2, first2)
  {
  }

  /** Which candidates of source p come before candidate i of source q. */
  function FirstOf(p: nat, q: nat, i: int, n: nat): int {
    if p < q then n else if p == q then i else 0
  }

  /** The first candidate of the same name that no other is closer than, if it is closer than
      (in1, in2). */
  method IOformatListCmp(f: Format, list: seq<Option<Format>>, in1: nat, in2: nat) returns (nearest: int, comp1: nat, comp2: nat)
    requires WellNamed(f) && AllWellNamed(list) && (in1, in2) != (0, 0)
    ensures -1 <= nearest < |list|
    ensures nearest == -1 ==> comp1 == in1 && comp2 == in2
    ensures nearest >= 0 ==> IsCandidate(f, list, nearest, comp1, comp2) && Closer(comp1, comp2, in1, in2)
    ensures forall k :: 0 <= k < |list| ==> AtLeast(f, list, k, comp1, comp2, nearest)
  {
    nearest, comp1, comp2 := -1, in1, in2;
    var i := 0;
    while i < |list|
      invariant 0 <= i <= |list| && -1 <= nearest < i && (comp1, comp2) != (0, 0)
      invariant nearest == -1 ==> comp1 == in1 && comp2 == in2
      invariant nearest >= 0 ==> IsCandidate(f, list, nearest, comp1, comp2) && Closer(comp1, comp2, in1, in2)
      invariant forall k :: 0 <= k < i ==> AtLeast(f, list, k, comp1, comp2, nearest)
    {
      if list[i].Some? && list[i].value.name == f.name {
        if f == list[i].value { NoSelfDifference(f); }
        var order, diff1, diff2 := FMformatCmpDiff(f, list[i].value, 0, 0);
        if order == Equal {
          forall k | 0 <= k < |list|
            ensures AtLeast(f, list, k, 0, 0, i)
          {
            if k < i { Tighter(f, list, k, comp1, comp2, nearest, 0, 0, i); }
          }
          return i, 0, 0;
        }
        if Closer(diff1, diff2, comp1, comp2) {
          forall k | 0 <= k < i
            ensures AtLeast(f, list, k, diff1, diff2, i)
          {
            Tighter(f, list, k, comp1, comp2, nearest, diff1, diff2, i);
          }
          nearest, comp1, comp2 := i, diff1, diff2;
        }
      }
      i := i + 1;
    }
  }

  /** Format q of the sources and candidate i are the closest pair of one name, closer than all
      pairs before them. */
  ghost predicate Closest(sources: seq<Format>, list: seq<Option<Format>>, q: nat, i: nat) {
    && q < |sources| && Named(sources[q], list, i)
    && var d1, d2 := Diff1(sources[q], list[i].value), Diff2(sources[q], list[i].value);
       && Closer(d1, d2, MAX_DIFF, MAX_DIFF)
       && forall p, k :: 0 <= p < |sources| && 0 <= k < |list| ==>
           AtLeast(sources[p], list, k, d1, d2, FirstOf(p, q, i, |list|))
  }

  /** No pair of one name differs by less than the most that is counted. */
  ghost predicate NoneClose(sources: seq<Format>, list: seq<Option<Format>>) {
    forall p, k :: 0 <= p < |sources| && 0 <= k < |list| ==> AtLeast(sources[p], list, k, MAX_DIFF, MAX_DIFF, 0)
  }

  /** The closest pair is one at most. */
  lemma OneClosest(sources: seq<Format>, list: seq<Option<Format>>, q: nat, i: nat, p: nat, k: nat)
    requires Closest(sources, list, q, i)
    ensures Closest(sources, list, p, k) ==> p == q && k == i
    ensures !NoneClose(sources, list)
  {
    assert AtLeast(sources[q], list, i, MAX_DIFF, MAX_DIFF, 0) ==> false;
    if Closest(sources, list, p, k) {
      var d1, d2 := Diff1(sources[q], list[i].value), Diff2(sources[q], list[i].value);
      var e1, e2 := Diff1(sources[p], list[k].value), Diff2(sources[p], list[k].value);
      assert AtLeast(sources[p], list, k, d1, d2, FirstOf(p, q, i, |list|));
      assert AtLeast(sources[q], list, i, e1, e2, FirstOf(q, p, k, |list|));
      assert !Closer(d1, d2, e1, e2) || !Closer(e1, e2, d1, d2);
    }
  }

  /** What is known after the first sources. */
  ghost predicate SoFar(sources: seq<Format>, list: seq<Option<Format>>, q: nat, nearest: int, c1: nat, c2: nat) {
    if nearest < 0 then c1 == c2 == MAX_DIFF && NoneClose(sources, list)
    else Closest(sources, list, q, nearest) && c1 == Diff1(sources[q], list[nearest].value) && c2 == Diff2(sources[q], list[nearest].value)
  }

  function BoundOf(p: nat, q: nat, nearest: int, n: nat): int {
    if nearest < 0 then 0 else FirstOf(p, q, nearest, n)
  }

  lemma OneSource(sources: seq<Format>, p: Format, list: seq<Option<Format>>, q: nat, nearest: int, c1: nat, c2: nat,
                  found: int, e1: nat, e2: nat)
    requires SoFar(sources, list, q, nearest, c1, c2) && -1 <= found < |list|
    requires found == -1 ==> e1 == c1 && e2 == c2
    requires found >= 0 ==> IsCandidate(p, list, found, e1, e2) && Closer(e1, e2, c1, c2)
    requires forall k :: 0 <= k < |list| ==> AtLeast(p, list, k, e1, e2, found)
    ensures SoFar(sources + [p], list, if found >= 0 then |sources| else q, if found >= 0 then found else nearest, e1, e2)
  {
    var all := sources + [p];
    var q2, near2 := if found >= 0 then |sources| else q, if found >= 0 then found else nearest;
    assert all[|sources|] == p && forall s :: 0 <= s < |sources| ==> all[s] == sources[s];
    forall s, k | 0 <= s < |all| && 0 <= k < |list|
      ensures AtLeast(all[s], list, k, e1, e2, BoundOf(s, q2, near2, |list|))
    {
      if s < |sources| {
        assert AtLeast(sources[s], list, k, c1, c2, BoundOf(s, q, nearest, |list|));
        Tighter(sources[s], list, k, c1, c2, BoundOf(s, q, nearest, |list|), e1, e2, BoundOf(s, q2, near2, |list|));
      } else {
        Tighter(p, list, k, e1, e2, found, e1, e2, BoundOf(s, q2, near2, |list|));
      }
    }
    if near2 >= 0 {
      assert all[q2] == if found >= 0 then p else sources[q];
      forall s, k | 0 <= s < |all| && 0 <= k < |list|
        ensures AtLeast(all[s], list, k, e1, e2, FirstOf(s, q2, near2, |list|))
      {
        assert AtLeast(all[s], list, k, e1, e2, BoundOf(s, q2, near2, |list|));
      }
    } else {
      forall s, k | 0 <= s < |all| && 0 <= k < |list|
        ensures AtLeast(all[s], list, k, e1, e2, 0)
      {
        assert AtLeast(all[s], list, k, e1, e2, BoundOf(s, q2, near2, |list|));
      }
    }
  }

  /** Nothing later is closer than a pair that does not differ. */
  lemma NothingCloser(sources: seq<Format>, more: seq<Format>, list: seq<Option<Format>>, q: nat, i: nat)
    requires Closest(sources, list, q, i) && Diff1(sources[q], list[i].value) == 0 && Diff2(sources[q], list[i].value) == 0
    ensures Closest(sources + more, list, q, i)
  {
    var all := sources + more;
    forall s, k | 0 <= s < |all| && 0 <= k < |list|
      ensures AtLeast(all[s], list, k, 0, 0, FirstOf(s, q, i, |list|))
    {
      if s < |sources| {
        assert AtLeast(sources[s], list, k, 0, 0, FirstOf(s, q, i, |list|));
      }
    }
  }

  /** All fields of a format and of those its fields are made of. */
  function CountTotal(f: Format): nat
    decreases f, 1, 0
  {
    |f.fields| + CountFields(f, 0)
  }

  function CountFields(f: Format, i: nat): nat
    requires i <= |f.fields|
    decreases f, 0, |f.fields| - i
  {
    if i == |f.fields| then 0
    else
      (if f.fields[i].typ.base == f.name then 0
       else match Find(f, f.subs, f.fields[i].typ.base) case None => 0 case Some(m) => CountTotal(m))
      + CountFields(f, i + 1)
  }

  /** No field holds the format itself: counting the fields of its fields would not end. */
  ghost predicate Countable(f: Format) {
    && (Self in f.subs ==> forall g :: g in f.fields ==> g.typ.base != f.name)
    && forall k :: 0 <= k < |f.subs| && f.subs[k].Other? ==> Countable(f.subs[k].format)
  }

  lemma HeldFormat(f: Format, base: string)
    requires WellNamed(f) && Countable(f) && Find(f, f.subs, base).Some? && exists g :: g in f.fields && g.typ.base == base
    ensures var m := Find(f, f.subs, base).value;
      base != f.name && Other(m) in f.subs && WellNamed(m) && Countable(m)
  {
    hide UniqueNames, UniqueFormats;
  }

  method CountTotalIOField(f: Format) returns (count: nat)
    requires WellNamed(f) && Countable(f)
    ensures count == CountTotal(f)
    decreases f
  {
    hide WellNamed, Countable, Find;
    count := |f.fields|;
    var i := 0;
    while i < |f.fields|
      invariant 0 <= i <= |f.fields| && count + CountFields(f, i) == CountTotal(f)
    {
      var sub := Find(f, f.subs, f.fields[i].typ.base);
      if sub.Some? {
        assert f.fields[i] in f.fields;
        HeldFormat(f, f.fields[i].typ.base);
        var inner := CountTotalIOField(sub.value);
        count := count + inner;
      }
      i := i + 1;
    }
  }

  /** Less than a fifth of the fields are missing. */
  predicate CompatEnough(diff2: nat, fields: nat) {
    5 * diff2 < fields
  }

  function Sources(f: Format, priors: Option<seq<Format>>): seq<Format> {
    if priors.None? then [f] else [f] + priors.value
  }

  /** A pair of source q and candidate i may be taken: the format itself matches exactly, or
      there are earlier versions and few enough fields are missing. */
  ghost predicate Acceptable(f: Format, priors: Option<seq<Format>>, list: seq<Option<Format>>, q: nat, i: nat)
    requires q < |Sources(f, priors)| && Named(Sources(f, priors)[q], list, i)
  {
    var source := Sources(f, priors)[q];
    var d1, d2 := Diff1(source, list[i].value), Diff2(source, list[i].value);
    (q == 0 && d1 == 0 && d2 == 0) || (priors.Some? && CompatEnough(d2, CountTotal(list[i].value)))
  }

  /** Main result. The closest pair of one name, over the format and its earlier versions, if
      it may be taken; no format otherwise. */
  method FMformatCompatCmp(f: Format, list: seq<Option<Format>>, priors: Option<seq<Format>>) returns (nearest: int, older: Option<nat>)
    requires WellNamed(f) && AllWellNamed(list) && (priors.Some? ==> forall k :: 0 <= k < |priors.value| ==> WellNamed(priors.value[k]))
    requires priors.Some? ==> forall k :: 0 <= k < |list| && list[k].Some? ==> Countable(list[k].value)
    ensures nearest >= 0 ==>
      var q := if older.None? then 0 else older.value + 1;
      Closest(Sources(f, priors), list, q, nearest) && Acceptable(f, priors, list, q, nearest)
    ensures nearest < 0 ==> nearest == -1 && older.None?
    ensures nearest < 0 ==> forall q: nat, i: nat :: Closest(Sources(f, priors), list, q, i) ==> !Acceptable(f, priors, list, q, i)
  {
    hide Closest, Acceptable, NoneClose, AtLeast, Diff1, Diff2;
    older := None;
    var c1, c2;
    nearest, c1, c2 := IOformatListCmp(f, list, MAX_DIFF, MAX_DIFF);
    Nobody(list);
    OneSource([], f, list, 0, -1, MAX_DIFF, MAX_DIFF, nearest, c1, c2);
    assert [] + [f] == [f];
    ghost var all, q: nat := Sources(f, priors), 0;
    if nearest != -1 && c1 == 0 && c2 == 0 {
      NothingCloser([f], all[1..], list, 0, nearest);
      assert [f] + all[1..] == all;
      MayTake(f, priors, list, 0, nearest, c1, c2);
      return;
    }
    if priors.None? {
      if nearest != -1 { MayTake(f, priors, list, 0, nearest, c1, c2); }
      NoOther(f, priors, list, 0, nearest, c1, c2);
      return -1, None;
    }
    var i := 0;
    while i < |priors.value|
      invariant 0 <= i <= |priors.value| && (c1, c2) != (0, 0) && -1 <= nearest < |list|
      invariant SoFar(all[..i + 1], list, q, nearest, c1, c2)
      invariant nearest >= 0 ==> q == (if older.None? then 0 else older.value + 1)
      invariant nearest < 0 ==> older.None?
    {
      var found, e1, e2 := IOformatListCmp(priors.value[i], list, c1, c2);
      OneSource(all[..i + 1], priors.value[i], list, q, nearest, c1, c2, found, e1, e2);
      assert all[..i + 1] + [priors.value[i]] == all[..i + 2];
      c1, c2 := e1, e2;
      if found != -1 {
        nearest, older := found, Some(i);
        q := i + 1;
      }
      if c1 == 0 && c2 == 0 {
        NothingCloser(all[..i + 2], all[i + 2..], list, q, nearest);
        assert all[..i + 2] + all[i + 2..] == all;
        break;
      }
      i := i + 1;
    }
    assert i == |priors.value| ==> all[..i + 1] == all;
    if nearest == -1 {
      NoOther(f, priors, list, q, nearest, c1, c2);
      return;
    }
    MayTake(f, priors, list, q, nearest, c1, c2);
    var count := CountTotalIOField(list[nearest].value);
    if !CompatEnough(c2, count) {
      NoOther(f, priors, list, q, nearest, c1, c2);
      return -1, None;
    }
  }

  lemma Nobody(list: seq<Option<Format>>)
    ensures NoneClose([], list)
  {
  }

  lemma MayTake(f: Format, priors: Option<seq<Format>>, list: seq<Option<Format>>, q: nat, i: nat, c1: nat, c2: nat)
    requires SoFar(Sources(f, priors), list, q, i, c1, c2)
    ensures q < |Sources(f, priors)| && Named(Sources(f, priors)[q], list, i)
    ensures Acceptable(f, priors, list, q, i) <==>
      (q == 0 && c1 == 0 && c2 == 0) || (priors.Some? && CompatEnough(c2, CountTotal(list[i].value)))
  {
  }

  lemma NoOther(f: Format, priors: Option<seq<Format>>, list: seq<Option<Format>>, q: nat, nearest: int, c1: nat, c2: nat)
    requires SoFar(Sources(f, priors), list, q, nearest, c1, c2)
    requires nearest >= 0 ==> !Acceptable(f, priors, list, q, nearest)
    ensures forall p: nat, i: nat :: Closest(Sources(f, priors), list, p, i) ==> !Acceptable(f, priors, list, p, i)
  {
    forall p: nat, i: nat | Closest(Sources(f, priors), list, p, i)
      ensures !Acceptable(f, priors, list, p, i)
    {
      if nearest >= 0 { OneClosest(Sources(f, priors), list, q, nearest, p, i); } else { NotClosest(Sources(f, priors), list, p, i); }
    }
  }

  lemma NotClosest(sources: seq<Format>, list: seq<Option<Format>>, p: nat, i: nat)
    requires NoneClose(sources, list)
    ensures !Closest(sources, list, p, i)
  {
    if Closest(sources, list, p, i) {
      OneClosest(sources, list, p, i, p, i);
    }
  }
}
